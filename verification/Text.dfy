/**
 The string operations of the line protocol: splitting, trimming and prefixes as Go's
 `strings` package defines them for one-character separators.
 A `char` is a Unicode code point; `ByteLen` is the length Go's `len` reports.
 */
module Text {
  // ---------------------------------------------------------------- length in bytes

  function Utf8Width(c: char): nat {
    if c < 0x80 as char then 1 else if c < 0x800 as char then 2
    else if (c as int) < 0x10000 then 3 else 4
  }

  function ByteLen(s: string): nat {
    if s == "" then 0 else Utf8Width(s[0]) + ByteLen(s[1..])
  }

  /** A character below 128 takes one byte, and the longest ones take four. */
  lemma {:induction false} ByteLenBounds(s: string)
    ensures |s| <= ByteLen(s) <= 4 * |s|
    ensures (forall i :: 0 <= i < |s| ==> s[i] < 128 as char) <==> ByteLen(s) == |s|
  {
    if s == "" {
    } else {
      ByteLenBounds(s[1..]);
      assert s == [s[0]] + s[1..];
    }
  }

  // ---------------------------------------------------------------- white space

  /** unicode.IsSpace. */
  predicate IsSpace(c: char) {
    || '\t' <= c <= '\r' || c == ' ' || c == 0x85 as char || c == 0xA0 as char
    || c == 0x1680 as char || 0x2000 as char <= c <= 0x200A as char
    || c == 0x2028 as char || c == 0x2029 as char || c == 0x202F as char
    || c == 0x205F as char || c == 0x3000 as char
  }

  /** The 25 characters that Unicode calls white space. */
  lemma WhiteSpaceIs(c: char)
    ensures IsSpace(c) <==>
              c as int in [0x9, 0xA, 0xB, 0xC, 0xD, 0x20, 0x85, 0xA0, 0x1680, 0x2000, 0x2001, 0x2002, 0x2003,
                           0x2004, 0x2005, 0x2006, 0x2007, 0x2008, 0x2009, 0x200A, 0x2028, 0x2029, 0x202F,
                           0x205F, 0x3000]
  {
  }

  ghost predicate NoSpace(s: string) {
    forall i :: 0 <= i < |s| ==> !IsSpace(s[i])
  }

  function TrimLeft(s: string): string {
    if s != "" && IsSpace(s[0]) then TrimLeft(s[1..]) else s
  }

  function TrimRight(s: string): string {
    if s != "" && IsSpace(s[|s| - 1]) then TrimRight(s[..|s| - 1]) else s
  }

  /** strings.TrimSpace. */
  function TrimSpace(s: string): string {
    TrimRight(TrimLeft(s))
  }

  /** The newline that ends a line is what trimming takes off a line with clean ends. */
  lemma TrimSpaceLine(s: string)
    requires s != "" && !IsSpace(s[0]) && !IsSpace(s[|s| - 1])
    ensures TrimSpace(s + "\n") == s
  {
    var line := s + "\n";
    assert TrimLeft(line) == line;
    assert line[..|line| - 1] == s;
    assert TrimRight(line) == TrimRight(s);
  }

  lemma {:induction false} TrimLeftEnds(s: string)
    ensures TrimLeft(s) != "" ==> !IsSpace(TrimLeft(s)[0])
    ensures |TrimLeft(s)| <= |s| && TrimLeft(s) == s[|s| - |TrimLeft(s)|..]
  {
    if s == "" {
    } else if IsSpace(s[0]) {
      TrimLeftEnds(s[1..]);
    }
  }

  lemma {:induction false} TrimRightEnds(s: string)
    ensures TrimRight(s) <= s && (TrimRight(s) != "" ==> !IsSpace(TrimRight(s)[|TrimRight(s)| - 1]))
  {
    if s == "" {
    } else if IsSpace(s[|s| - 1]) {
      TrimRightEnds(s[..|s| - 1]);
    }
  }

  /** A trimmed text begins and ends with something else than white space. */
  lemma TrimmedEnds(s: string)
    requires TrimSpace(s) != ""
    ensures var t := TrimSpace(s); !IsSpace(t[0]) && !IsSpace(t[|t| - 1])
  {
    TrimLeftEnds(s);
    TrimRightEnds(TrimLeft(s));
  }

  /** Trimming cuts at both ends and nowhere else. */
  lemma TrimmedIsPart(s: string) returns (i: nat)
    ensures i + |TrimSpace(s)| <= |s| && TrimSpace(s) == s[i..i + |TrimSpace(s)|]
  {
    TrimLeftEnds(s);
    TrimRightEnds(TrimLeft(s));
    i := |s| - |TrimLeft(s)|;
  }

  /** Trimming on the right stops at the first character that is no white space. */
  lemma {:induction false} TrimRightStops(head: string, tail: string)
    requires head != "" && !IsSpace(head[|head| - 1])
    ensures TrimRight(head + tail) == head + TrimRight(tail)
  {
    if tail == "" {
      assert head + tail == head;
    } else if IsSpace(tail[|tail| - 1]) {
      TrimRightStops(head, tail[..|tail| - 1]);
      assert (head + tail)[..|head + tail| - 1] == head + tail[..|tail| - 1];
    }
  }

  // ---------------------------------------------------------------- prefixes

  predicate HasPrefix(s: string, p: string) {
    |p| <= |s| && s[..|p|] == p
  }

  function TrimPrefix(s: string, p: string): string {
    if HasPrefix(s, p) then s[|p|..] else s
  }

  // ---------------------------------------------------------------- removing characters

  /** strings.ReplaceAll(s, c, ""). */
  function Without(s: string, c: char): string {
    if s == "" then "" else (if s[0] == c then "" else [s[0]]) + Without(s[1..], c)
  }

  /** Exactly the other characters stay. */
  lemma {:induction false} WithoutMembers(s: string, c: char)
    ensures forall d :: d in Without(s, c) <==> d in s && d != c
  {
    if s == "" {
    } else {
      WithoutMembers(s[1..], c);
      assert s == [s[0]] + s[1..];
      assert forall d :: d in s <==> d == s[0] || d in s[1..];
    }
  }

  lemma WithoutOne(c: char, d: char)
    ensures Without([c], d) == if c == d then "" else [c]
    ensures Without("", d) == ""
  {
    assert [c][1..] == "";
  }

  lemma WithoutFirst(a: string, s: string, c: char, last: string)
    requires a != "" && s != "" && s[0] == a[0] && Without(s[1..], c) == Without(a[1..], c) + last
    ensures Without(s, c) == Without(a, c) + last
  {
  }

  lemma {:induction false} WithoutBoth(a: string, b: string, c: char)
    ensures Without(a + b, c) == Without(a, c) + Without(b, c)
  {
    if a == "" {
      assert a + b == b;
    } else {
      WithoutBoth(a[1..], b, c);
      assert (a + b)[1..] == a[1..] + b;
      WithoutFirst(a, a + b, c, Without(b, c));
    }
  }

  /** A text that does not have the character is left alone. */
  lemma {:induction false} WithoutAbsent(s: string, c: char)
    requires c !in s
    ensures Without(s, c) == s
  {
    if s == "" {
    } else {
      WithoutAbsent(s[1..], c);
      assert s == [s[0]] + s[1..];
    }
  }

  // ---------------------------------------------------------------- splitting

  /** strings.Split for a one-character separator. */
  function Split(s: string, sep: char): (parts: seq<string>)
    ensures |parts| >= 1
  {
    if s == "" then [""]
    else
      var rest := Split(s[1..], sep);
      if s[0] == sep then [""] + rest else [[s[0]] + rest[0]] + rest[1..]
  }

  /** strings.SplitN for a one-character separator and n >= 1. */
  function SplitN(s: string, sep: char, n: nat): (parts: seq<string>)
    requires n >= 1
    ensures 1 <= |parts| <= n
  {
    if n == 1 || s == "" then [s]
    else if s[0] == sep then [""] + SplitN(s[1..], sep, n - 1)
    else
      var rest := SplitN(s[1..], sep, n);
      [[s[0]] + rest[0]] + rest[1..]
  }

  /** The inverse of splitting. */
  function JoinWith(parts: seq<string>, sep: char): string
    requires |parts| >= 1
  {
    if |parts| == 1 then parts[0] else parts[0] + [sep] + JoinWith(parts[1..], sep)
  }

  /** A field without the separator comes back whole as the first part. */
  lemma {:induction false} SplitField(a: string, rest: string, sep: char)
    requires sep !in a
    ensures Split(a + [sep] + rest, sep) == [a] + Split(rest, sep)
  {
    var s := a + [sep] + rest;
    if a == "" {
      assert s[1..] == rest;
    } else {
      SplitField(a[1..], rest, sep);
      assert s[1..] == a[1..] + [sep] + rest;
      assert [a[0]] + a[1..] == a;
    }
  }

  lemma {:induction false} SplitLast(a: string, sep: char)
    requires sep !in a
    ensures Split(a, sep) == [a]
  {
    if a == "" {
    } else {
      SplitLast(a[1..], sep);
      assert [a[0]] + a[1..] == a;
    }
  }

  lemma {:induction false} SplitNField(a: string, rest: string, sep: char, n: nat)
    requires sep !in a && n >= 2
    ensures SplitN(a + [sep] + rest, sep, n) == [a] + SplitN(rest, sep, n - 1)
  {
    var s := a + [sep] + rest;
    if a == "" {
      assert s[1..] == rest;
    } else {
      SplitNField(a[1..], rest, sep, n);
      assert s[1..] == a[1..] + [sep] + rest;
      assert [a[0]] + a[1..] == a;
    }
  }

  lemma {:induction false} SplitNLast(a: string, sep: char, n: nat)
    requires sep !in a && n >= 1
    ensures SplitN(a, sep, n) == [a]
  {
    if a == "" {
    } else if n > 1 {
      SplitNLast(a[1..], sep, n);
      assert [a[0]] + a[1..] == a;
    }
  }

  /** The first separator tells what stands before it from what stands after. */
  lemma FieldCancels(a: string, x: string, b: string, y: string, sep: char)
    requires sep !in a && sep !in b && a + [sep] + x == b + [sep] + y
    ensures a == b && x == y
  {
    SplitNField(a, x, sep, 2);
    SplitNField(b, y, sep, 2);
    var parts := [a] + SplitN(x, sep, 1);
    assert parts == [b] + SplitN(y, sep, 1);
    assert parts[0] == a && parts[0] == b && parts[1] == x && parts[1] == y;
  }

  /** Parts have no separator, and no character that was not in the text. */
  lemma {:induction false} SplitParts(s: string, sep: char)
    ensures forall p :: p in Split(s, sep) ==> sep !in p && forall c :: c in p ==> c in s
  {
    if s == "" {
    } else {
      SplitParts(s[1..], sep);
      var rest := Split(s[1..], sep);
      assert rest[0] in rest;
      assert forall p :: p in rest[1..] ==> p in rest;
    }
  }
}
