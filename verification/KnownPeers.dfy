/**
 The text format of the known-peers file: one "address fingerprint" line for each pin, blank lines
 and lines that start with '#' ignored, a later line overriding an earlier one.
 */
module KnownPeers {
  import opened Text

  type Pins = map<string, string>

  /** bufio.ScanLines; the carriage return it strips as well is white space to every caller. */
  function ScanLines(text: string): seq<string> {
    var pieces := Split(text, '\n');
    if pieces[|pieces| - 1] == "" then pieces[..|pieces| - 1] else pieces
  }

  /** The longest prefix of a text without white space. */
  function Word(s: string): (w: string)
    ensures w <= s && NoSpace(w)
    ensures w == s || IsSpace(s[|w|])
  {
    if s == "" || IsSpace(s[0]) then ""
    else
      var w := Word(s[1..]);
      assert s[..1 + |w|] == [s[0]] + s[1..][..|w|];
      [s[0]] + w
  }

  /** strings.Fields. */
  function Fields(s: string): seq<string>
    decreases |s|
  {
    if s == "" then []
    else if IsSpace(s[0]) then Fields(s[1..])
    else
      var w := Word(s);
      [w] + Fields(s[|w|..])
  }

  /** What one line of the file adds to the pins read so far. */
  function LineAdded(pins: Pins, line: string): Pins {
    var l := TrimSpace(line);
    if l == "" || HasPrefix(l, "#") then pins
    else
      var parts := Fields(l);
      if |parts| >= 2 then pins[parts[0] := parts[1]] else pins
  }

  function Loaded(pins: Pins, lines: seq<string>): Pins {
    if lines == [] then pins
    else LineAdded(Loaded(pins, lines[..|lines| - 1]), lines[|lines| - 1])
  }

  lemma LoadedNext(pins: Pins, lines: seq<string>, i: nat)
    requires i < |lines|
    ensures Loaded(pins, lines[..i + 1]) == LineAdded(Loaded(pins, lines[..i]), lines[i])
  {
    assert lines[..i + 1][..i] == lines[..i];
  }

  /** The pins a fresh store reads from a file. */
  function Reload(text: string): Pins {
    Loaded(map[], ScanLines(text))
  }

  /** The line appendKnownPeer adds. */
  function Entry(addr: string, fp: string): string {
    addr + " " + fp + "\n"
  }

  // ---------------------------------------------------------------- words

  predicate IsWord(s: string) {
    s != "" && forall i :: 0 <= i < |s| ==> !IsSpace(s[i])
  }

  predicate Blank(s: string) {
    forall i :: 0 <= i < |s| ==> IsSpace(s[i])
  }

  /** A run without white space at the front, ended by white space or the end, is the word. */
  lemma {:induction false} WordFirst(a: string, rest: string)
    requires NoSpace(a) && (rest == "" || IsSpace(rest[0]))
    ensures Word(a + rest) == a
  {
    if a == "" {
      assert a + rest == rest;
    } else {
      WordFirst(a[1..], rest);
      assert (a + rest)[1..] == a[1..] + rest;
      assert a == [a[0]] + a[1..];
    }
  }

  lemma FieldsFirst(a: string, rest: string)
    requires IsWord(a) && (rest == "" || IsSpace(rest[0]))
    ensures Fields(a + rest) == [a] + Fields(rest)
  {
    WordFirst(a, rest);
    assert (a + rest)[|a|..] == rest;
  }

  lemma {:induction false} FieldsBlank(b: string, rest: string)
    requires Blank(b)
    ensures Fields(b + rest) == Fields(rest)
  {
    if b == "" {
      assert b + rest == rest;
    } else {
      FieldsBlank(b[1..], rest);
      assert (b + rest)[1..] == b[1..] + rest;
    }
  }

  lemma {:induction false} TrimLeftBlank(b: string, rest: string)
    requires Blank(b) && (rest == "" || !IsSpace(rest[0]))
    ensures TrimLeft(b + rest) == rest
  {
    if b == "" {
      assert b + rest == rest;
    } else {
      TrimLeftBlank(b[1..], rest);
      assert (b + rest)[1..] == b[1..] + rest;
    }
  }

  /** White space in front of a text with clean ends is what trimming takes off. */
  lemma TrimSpaceBlank(b: string, s: string)
    requires Blank(b) && s != "" && !IsSpace(s[0]) && !IsSpace(s[|s| - 1])
    ensures TrimSpace(b + s) == s
  {
    TrimLeftBlank(b, s);
  }

  lemma BlankAddsNothing(pins: Pins, b: string)
    requires Blank(b)
    ensures LineAdded(pins, b) == pins
  {
    TrimLeftBlank(b, "");
    assert b + "" == b;
  }

  /** A line that starts with '#' once trimmed is a comment. */
  lemma CommentAddsNothing(pins: Pins, b: string, text: string)
    requires Blank(b)
    ensures LineAdded(pins, b + "#" + text) == pins
  {
    var line := "#" + text;
    TrimLeftBlank(b, line);
    assert b + line == b + "#" + text;
    TrimRightStops("#", text);
  }

  /** So does a line with a single word on it. */
  lemma WordAddsNothing(pins: Pins, word: string)
    requires IsWord(word)
    ensures LineAdded(pins, word) == pins
  {
    TrimSpaceBlank("", word);
    assert "" + word == word;
    FieldsFirst(word, "");
    assert word + "" == word;
  }

  lemma TwoWordsPin(pins: Pins, l: string, parts: seq<string>)
    requires TrimSpace(l) != "" && TrimSpace(l)[0] != '#' && Fields(TrimSpace(l)) == parts && |parts| >= 2
    ensures LineAdded(pins, l) == pins[parts[0] := parts[1]]
  {
  }

  lemma FieldsPair(addr: string, rest: string)
    requires IsWord(addr)
    ensures Fields(addr + (" " + rest)) == [addr] + Fields(rest)
  {
    FieldsFirst(addr, " " + rest);
    FieldsBlank(" ", rest);
  }

  lemma FieldsOfMore(addr: string, fp: string, more: string)
    requires IsWord(addr) && IsWord(fp) && more != "" && IsSpace(more[0])
    ensures Fields(addr + (" " + (fp + more))) == [addr] + ([fp] + Fields(more))
  {
    FieldsPair(addr, fp + more);
    FieldsFirst(fp, more);
  }

  /** Of a line with more words only the first two count. */
  lemma FirstTwoCount(pins: Pins, addr: string, fp: string, more: string)
    requires IsWord(addr) && addr[0] != '#' && IsWord(fp) && more != "" && IsSpace(more[0])
    requires !IsSpace(more[|more| - 1])
    ensures LineAdded(pins, addr + (" " + (fp + more))) == pins[addr := fp]
  {
    var line := addr + (" " + (fp + more));
    assert line[0] == addr[0] && line[|line| - 1] == more[|more| - 1];
    TrimSpaceBlank("", line);
    assert "" + line == line;
    FieldsOfMore(addr, fp, more);
    TwoWordsPin(pins, line, [addr] + ([fp] + Fields(more)));
  }

  // ---------------------------------------------------------------- appending a line

  function Pieces(text: string): seq<string> {
    Split(text, '\n')
  }

  /** What stands after the last newline. */
  function Tail(text: string): string {
    var pieces := Pieces(text);
    pieces[|pieces| - 1]
  }

  function Before(text: string): seq<string> {
    var pieces := Pieces(text);
    pieces[..|pieces| - 1]
  }

  /** An empty piece after the last newline is no line, and would add nothing if it were. */
  lemma ReloadPieces(text: string)
    ensures Reload(text) == LineAdded(Loaded(map[], Before(text)), Tail(text))
  {
  }

  /** An appended line extends what stands after the last newline, and leaves nothing after its own. */
  lemma {:induction false} AppendedPieces(text: string, line: string)
    requires '\n' !in line
    ensures Pieces(text + (line + "\n")) == Before(text) + [Tail(text) + line, ""]
  {
    if text == "" {
      SplitField(line, "", '\n');
      assert line + "\n" + "" == line + "\n" == text + (line + "\n");
      assert "" + line == line;
      assert Before(text) == [];
    } else {
      AppendedPieces(text[1..], line);
      assert (text + (line + "\n"))[1..] == text[1..] + (line + "\n");
      var rest := Pieces(text[1..]);
      var after := rest[..|rest| - 1] + [rest[|rest| - 1] + line, ""];
      if text[0] == '\n' {
        assert Pieces(text) == [""] + rest;
        assert Before(text) + [Tail(text) + line, ""] == [""] + after;
      } else if |rest| == 1 {
        assert [text[0]] + (rest[0] + line) == ([text[0]] + rest[0]) + line;
      } else {
        assert Before(text) + [Tail(text) + line, ""] == [[text[0]] + rest[0]] + after[1..];
      }
    }
  }

  lemma AppendedEntry(text: string, addr: string, fp: string)
    requires IsWord(addr) && IsWord(fp)
    ensures Tail(text + Entry(addr, fp)) == ""
    ensures Reload(text + Entry(addr, fp)) == LineAdded(Loaded(map[], Before(text)), Tail(text) + (addr + " " + fp))
  {
    var line := addr + " " + fp;
    AppendedPieces(text, line);
    ReloadPieces(text + Entry(addr, fp));
    assert Before(text + Entry(addr, fp)) == Before(text) + [Tail(text) + line];
    assert (Before(text) + [Tail(text) + line])[..|Before(text)|] == Before(text);
    BlankAddsNothing(Loaded(map[], Before(text + Entry(addr, fp))), "");
  }

  lemma FieldsOfEntry(addr: string, fp: string)
    requires IsWord(addr) && IsWord(fp)
    ensures Fields(addr + " " + fp) == [addr, fp]
  {
    FieldsFirst(addr, " " + fp);
    assert addr + (" " + fp) == addr + " " + fp;
    FieldsBlank(" ", fp);
    FieldsFirst(fp, "");
    assert fp + "" == fp;
  }

  /** White space in front of an entry does not matter. */
  lemma EntryAdded(pins: Pins, b: string, addr: string, fp: string)
    requires Blank(b) && IsWord(addr) && addr[0] != '#' && IsWord(fp)
    ensures LineAdded(pins, b + (addr + " " + fp)) == pins[addr := fp]
  {
    var line := addr + " " + fp;
    assert line[0] == addr[0] && line[|line| - 1] == fp[|fp| - 1];
    TrimSpaceBlank(b, line);
    FieldsOfEntry(addr, fp);
  }

  /** An entry appended to a file that ends in a newline adds its pin and nothing else. */
  lemma AppendAddsPin(text: string, addr: string, fp: string)
    requires IsWord(addr) && addr[0] != '#' && IsWord(fp) && Blank(Tail(text))
    ensures Reload(text + Entry(addr, fp)) == Reload(text)[addr := fp]
  {
    AppendedEntry(text, addr, fp);
    ReloadPieces(text);
    BlankAddsNothing(Loaded(map[], Before(text)), Tail(text));
    EntryAdded(Loaded(map[], Before(text)), Tail(text), addr, fp);
  }

  // ---------------------------------------------------------------- a file that does not end in a newline

  lemma {:induction false} FieldsNonBlank(s: string)
    requires !Blank(s)
    ensures Fields(s) != []
    decreases |s|
  {
    if IsSpace(s[0]) { FieldsNonBlank(s[1..]); }
  }

  lemma {:induction false} TrimLeftSplits(s: string) returns (b: string)
    ensures Blank(b) && s == b + TrimLeft(s)
    ensures !Blank(s) ==> TrimLeft(s) != "" && !IsSpace(TrimLeft(s)[0])
  {
    if s != "" && IsSpace(s[0]) {
      var c := TrimLeftSplits(s[1..]);
      b := [s[0]] + c;
      assert s == [s[0]] + s[1..];
    } else {
      b := "";
    }
  }

  /** An unfinished line, trimmed, together with the entry written after it. */
  lemma UnfinishedTrims(l: string, addr: string, fp: string)
    requires !Blank(l) && IsWord(addr) && IsWord(fp)
    ensures TrimLeft(l) != "" && !IsSpace(TrimLeft(l)[0])
    ensures TrimSpace(l + (addr + " " + fp)) == TrimLeft(l) + (addr + " " + fp)
  {
    var entry := addr + " " + fp;
    var b := TrimLeftSplits(l);
    var line := TrimLeft(l) + entry;
    assert l + entry == b + line;
    assert line[0] == TrimLeft(l)[0] && line[|line| - 1] == fp[|fp| - 1];
    TrimSpaceBlank(b, line);
  }

  /** The first word of a line that goes on after it is its first field, whatever is appended. */
  lemma FirstField(m: string, entry: string)
    requires Word(m) != "" && Word(m) != m
    ensures Fields(m + entry) == [Word(m)] + Fields(m[|Word(m)|..] + entry)
  {
    var w := Word(m);
    var rest := m[|w|..];
    assert m + entry == w + (rest + entry);
    FieldsFirst(w, rest + entry);
  }

  /** An entry written after a single word joins it. */
  lemma EntryJoinsWord(m: string, addr: string, fp: string)
    requires IsWord(m) && IsWord(addr) && IsWord(fp)
    ensures Fields(m + (addr + " " + fp)) == [m + addr, fp]
  {
    FieldsOfEntry(m + addr, fp);
    assert m + addr + " " + fp == m + (addr + " " + fp);
  }

  /** The words of a line that an entry was written after do not start with the entry's two. */
  lemma UnfinishedFields(m: string, addr: string, fp: string)
    requires m != "" && !IsSpace(m[0]) && IsWord(addr) && IsWord(fp) && addr != fp
    requires Word(m) == addr ==> Blank(m[|Word(m)|..])
    ensures var parts := Fields(m + (addr + " " + fp)); |parts| >= 2 ==> parts[0] != addr || parts[1] != fp
  {
    if Word(m) == m {
      EntryJoinsWord(m, addr, fp);
      assert |m + addr| > |addr|;
    } else {
      FirstField(m, addr + " " + fp);
      if Word(m) == addr {
        FieldsBlank(m[|Word(m)|..], addr + " " + fp);
        FieldsOfEntry(addr, fp);
      }
    }
  }

  /** A line never takes a pin away. */
  lemma KeepsOther(pins: Pins, l: string, addr: string)
    ensures addr in pins ==> addr in LineAdded(pins, l)
  {
  }

  lemma {:induction false} TrimRightKeeps(s: string, k: nat)
    requires k < |s| && !IsSpace(s[k])
    ensures k < |TrimRight(s)| <= |s| && TrimRight(s) == s[..|TrimRight(s)|]
  {
    if IsSpace(s[|s| - 1]) {
      TrimRightKeeps(s[..|s| - 1], k);
    }
  }

  /** Two words or more in a line stay that when trailing white space goes. */
  lemma SecondWordStays(m: string) returns (u: string)
    requires m != "" && !IsSpace(m[0]) && !Blank(m[|Word(m)|..])
    ensures TrimRight(m) == Word(m) + u && u != "" && IsSpace(u[0]) && !Blank(u)
  {
    var w := Word(m);
    var k :| |w| <= k < |m| && !IsSpace(m[k]);
    TrimRightKeeps(m, k);
    u := TrimRight(m)[|w|..];
    assert u[k - |w|] == m[k];
  }

  /** A line with two words or more pins its first one. */
  lemma SecondWordPins(pins: Pins, l: string)
    requires var m := TrimLeft(l); m != "" && !IsSpace(m[0]) && m[0] != '#' && !Blank(m[|Word(m)|..])
    ensures Word(TrimLeft(l)) in LineAdded(pins, l)
  {
    var m := TrimLeft(l);
    var u := SecondWordStays(m);
    FieldsFirst(Word(m), u);
    FieldsNonBlank(u);
    TwoWordsPin(pins, l, [Word(m)] + Fields(u));
  }

  /** The line that results when an entry is appended to an unfinished line does not hold that entry. */
  lemma AppendToUnfinished(pins: Pins, l: string, addr: string, fp: string)
    requires !Blank(l) && IsWord(addr) && IsWord(fp) && addr != fp && addr[0] != '#'
    requires addr !in LineAdded(pins, l)
    ensures var after := LineAdded(pins, l + (addr + " " + fp)); !(addr in after && after[addr] == fp)
  {
    UnfinishedTrims(l, addr, fp);
    var m := TrimLeft(l);
    var w := Word(m);
    if w == addr && !Blank(m[|w|..]) { SecondWordPins(pins, l); }
    UnfinishedFields(m, addr, fp);
    KeepsOther(pins, l, addr);
  }
}
