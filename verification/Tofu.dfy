/**
 Trust on first use: the pins held in memory and the append-only file they are reloaded from.
 Appending to the file may fail, which the program logs and otherwise ignores.
 */
module Tofu {
  import opened Wrappers
  import opened Text
  import opened KnownPeers

  /** `appended` and `lost` are history: the entries written, and the addresses whose append failed. */
  datatype Store = Store(
    persistent: bool,
    pins: Pins,
    file: Option<string>,
    appended: seq<(string, string)>,
    lost: set<string>)

  /** One call of checkAndPin, and whether an append would succeed at that moment. */
  datatype Contact = Contact(addr: string, fp: string, writable: bool)

  /** A file that does not exist reads like an empty one. */
  function FileText(file: Option<string>): string {
    if file.None? then "" else file.value
  }

  predicate Accepts(s: Store, c: Contact) {
    c.addr in s.pins ==> s.pins[c.addr] == c.fp
  }

  /** checkAndPin. */
  function Contacted(s: Store, c: Contact): Store {
    if c.addr in s.pins then s
    else
      var t := s.(pins := s.pins[c.addr := c.fp]);
      if !s.persistent then t
      else if !c.writable then t.(lost := s.lost + {c.addr})
      else
        t.(file := Some(FileText(s.file) + Entry(c.addr, c.fp)), appended := s.appended + [(c.addr, c.fp)])
  }

  function After(s: Store, contacts: seq<Contact>): Store {
    if contacts == [] then s else Contacted(After(s, contacts[..|contacts| - 1]), contacts[|contacts| - 1])
  }

  /** LoadKnownPeers on a fresh store. */
  function Opened(file: Option<string>): Store {
    Store(true, Reload(FileText(file)), file, [], {})
  }

  /** Addresses and fingerprints as connections supply them. */
  predicate Plain(c: Contact) {
    IsWord(c.addr) && c.addr[0] != '#' && IsWord(c.fp)
  }

  ghost predicate AllPlain(contacts: seq<Contact>) {
    forall i :: 0 <= i < |contacts| ==> Plain(contacts[i])
  }

  // ---------------------------------------------------------------- pins in memory

  /** A pin never changes once set. */
  lemma {:induction false} PinStays(s: Store, contacts: seq<Contact>, i: nat, addr: string)
    requires i <= |contacts| && addr in After(s, contacts[..i]).pins
    ensures addr in After(s, contacts).pins && After(s, contacts).pins[addr] == After(s, contacts[..i]).pins[addr]
    decreases |contacts|
  {
    var n := |contacts|;
    if i == n {
      assert contacts[..i] == contacts;
    } else {
      assert contacts[..n - 1][..i] == contacts[..i];
      PinStays(s, contacts[..n - 1], i, addr);
    }
  }

  /** An address accepted with one fingerprint is accepted later with that fingerprint and no other. */
  lemma FirstContactDecides(s: Store, contacts: seq<Contact>, i: nat, j: nat)
    requires i < j < |contacts| && contacts[i].addr == contacts[j].addr
    requires Accepts(After(s, contacts[..i]), contacts[i])
    ensures Accepts(After(s, contacts[..j]), contacts[j]) <==> contacts[j].fp == contacts[i].fp
  {
    assert contacts[..i + 1][..i] == contacts[..i];
    assert contacts[..j][..i + 1] == contacts[..i + 1];
    PinStays(s, contacts[..j], i + 1, contacts[i].addr);
  }

  /** An unknown address is accepted and pinned to what it shows; a known one changes nothing. */
  lemma FirstContactPins(s: Store, c: Contact)
    ensures c.addr !in s.pins ==>
              Accepts(s, c) && Contacted(s, c).pins == s.pins[c.addr := c.fp]
              && (!s.persistent ==> Contacted(s, c).file == s.file)
    ensures c.addr in s.pins ==> (Accepts(s, c) <==> s.pins[c.addr] == c.fp) && Contacted(s, c) == s
  {
  }

  // ---------------------------------------------------------------- the file

  function Entries(pairs: seq<(string, string)>): string {
    if pairs == [] then ""
    else Entries(pairs[..|pairs| - 1]) + Entry(pairs[|pairs| - 1].0, pairs[|pairs| - 1].1)
  }

  /** Every entry written is a new pin, no address is written twice, and what is not written was lost. */
  ghost predicate WrittenOnce(loaded: Pins, pins: Pins, appended: seq<(string, string)>, lost: set<string>) {
    && (forall i :: 0 <= i < |appended| ==>
          appended[i].0 !in loaded && appended[i].0 !in lost
          && appended[i].0 in pins && pins[appended[i].0] == appended[i].1)
    && (forall i, j :: 0 <= i < j < |appended| ==> appended[i].0 != appended[j].0)
    && (forall a :: a in pins ==> a in loaded || a in lost || (a, pins[a]) in appended)
    && lost <= pins.Keys && lost !! loaded.Keys && loaded.Keys <= pins.Keys
  }

  lemma WrittenStep(loaded: Pins, pins: Pins, appended: seq<(string, string)>, lost: set<string>,
                    addr: string, fp: string)
    requires WrittenOnce(loaded, pins, appended, lost) && addr !in pins
    ensures WrittenOnce(loaded, pins[addr := fp], appended + [(addr, fp)], lost)
    ensures WrittenOnce(loaded, pins[addr := fp], appended, lost + {addr})
  {
  }

  lemma EntriesStep(text: string, pairs: seq<(string, string)>, addr: string, fp: string)
    ensures text + Entries(pairs) + Entry(addr, fp) == text + Entries(pairs + [(addr, fp)])
  {
  }

  /** The file grows by exactly one entry for each newly contacted address whose append succeeded. */
  lemma {:induction false} AppendedOnce(file: Option<string>, contacts: seq<Contact>)
    ensures var s := After(Opened(file), contacts);
      && s.persistent && FileText(s.file) == FileText(file) + Entries(s.appended)
      && WrittenOnce(Opened(file).pins, s.pins, s.appended, s.lost)
  {
    if contacts == [] {
      assert FileText(file) + "" == FileText(file);
    } else {
      var before, c := contacts[..|contacts| - 1], contacts[|contacts| - 1];
      AppendedOnce(file, before);
      var s := After(Opened(file), before);
      if c.addr !in s.pins {
        WrittenStep(Opened(file).pins, s.pins, s.appended, s.lost, c.addr, c.fp);
        EntriesStep(FileText(file), s.appended, c.addr, c.fp);
      }
    }
  }

  // ---------------------------------------------------------------- reloading the file

  /** The file, read afresh, holds every pin but those whose append failed. */
  ghost predicate InStep(s: Store) {
    s.persistent && Reload(FileText(s.file)) == s.pins - s.lost && s.lost <= s.pins.Keys
  }

  lemma PinsLess(pins: Pins, lost: set<string>, addr: string, fp: string)
    requires addr !in pins
    ensures pins[addr := fp] - (lost + {addr}) == pins - lost
    ensures addr !in lost ==> pins[addr := fp] - lost == (pins - lost)[addr := fp]
  {
  }

  lemma StepInStep(s: Store, c: Contact)
    requires InStep(s) && Plain(c)
    requires Blank(Tail(FileText(s.file))) || Contacted(s, c).appended == s.appended
    ensures InStep(Contacted(s, c))
    ensures Blank(Tail(FileText(s.file))) ==> Blank(Tail(FileText(Contacted(s, c).file)))
  {
    if c.addr !in s.pins {
      PinsLess(s.pins, s.lost, c.addr, c.fp);
      if c.writable {
        AppendAddsPin(FileText(s.file), c.addr, c.fp);
        AppendedEntry(FileText(s.file), c.addr, c.fp);
      }
    }
  }

  lemma AllPins(pins: Pins)
    ensures pins - {} == pins
  {
  }

  /** A finished file stays in step with memory; an unfinished one does until something is appended. */
  lemma {:induction false} StaysInStep(file: Option<string>, contacts: seq<Contact>)
    requires AllPlain(contacts)
    requires Blank(Tail(FileText(file))) || After(Opened(file), contacts).appended == []
    ensures InStep(After(Opened(file), contacts))
    ensures Blank(Tail(FileText(file))) ==> Blank(Tail(FileText(After(Opened(file), contacts).file)))
    ensures After(Opened(file), contacts).appended == [] ==> After(Opened(file), contacts).file == file
  {
    if contacts == [] {
      AllPins(Opened(file).pins);
    } else {
      var before := contacts[..|contacts| - 1];
      StaysInStep(file, before);
      StepInStep(After(Opened(file), before), contacts[|contacts| - 1]);
    }
  }

  /** Memory holds a pin, written out and not lost, that reading the file afresh does not give. */
  predicate Garbled(s: Store, addr: string, fp: string) {
    var reloaded := Reload(FileText(s.file));
    && s.persistent && Blank(Tail(FileText(s.file)))
    && addr in s.pins && s.pins[addr] == fp && addr !in s.lost
    && !(addr in reloaded && reloaded[addr] == fp)
  }

  lemma StepGarbled(s: Store, c: Contact, addr: string, fp: string)
    requires Garbled(s, addr, fp) && Plain(c)
    ensures Garbled(Contacted(s, c), addr, fp)
  {
    if c.addr !in s.pins && c.writable {
      AppendAddsPin(FileText(s.file), c.addr, c.fp);
      AppendedEntry(FileText(s.file), c.addr, c.fp);
    }
  }

  lemma FirstAppendGarbles(s: Store, c: Contact)
    requires s.persistent && Plain(c) && c.addr != c.fp && c.addr !in s.pins && c.writable && c.addr !in s.lost
    requires !Blank(Tail(FileText(s.file))) && c.addr !in Reload(FileText(s.file))
    ensures Garbled(Contacted(s, c), c.addr, c.fp)
  {
    var text := FileText(s.file);
    ReloadPieces(text);
    AppendedEntry(text, c.addr, c.fp);
    AppendToUnfinished(Loaded(map[], Before(text)), Tail(text), c.addr, c.fp);
  }

  /** Appending to a file whose last line is unfinished loses the first pin appended, for good. */
  lemma {:induction false} UnfinishedLineGarbles(file: Option<string>, contacts: seq<Contact>)
    returns (addr: string, fp: string)
    requires AllPlain(contacts) && (forall i :: 0 <= i < |contacts| ==> contacts[i].addr != contacts[i].fp)
    requires !Blank(Tail(FileText(file))) && After(Opened(file), contacts).appended != []
    ensures Garbled(After(Opened(file), contacts), addr, fp)
    ensures After(Opened(file), contacts).appended[0] == (addr, fp)
  {
    var s0 := Opened(file);
    var before, c := contacts[..|contacts| - 1], contacts[|contacts| - 1];
    var s := After(s0, before);
    if s.appended == [] {
      StaysInStep(file, before);
      addr, fp := c.addr, c.fp;
      assert c.addr !in s.pins - s.lost;
      FirstAppendGarbles(s, c);
    } else {
      addr, fp := UnfinishedLineGarbles(file, before);
      StepGarbled(s, c, addr, fp);
    }
  }

  /** The first contact with a new address, at a moment when the file can be appended to. */
  predicate IsWritableFirst(file: Option<string>, contacts: seq<Contact>, i: nat) {
    && i < |contacts| && contacts[i].writable && contacts[i].addr !in Reload(FileText(file))
    && forall j :: 0 <= j < i ==> contacts[j].addr != contacts[i].addr
  }

  ghost predicate Appends(file: Option<string>, contacts: seq<Contact>) {
    exists i: nat :: IsWritableFirst(file, contacts, i)
  }

  /** Memory holds what the file gave and what was contacted since. */
  lemma {:induction false} PinnedAddresses(file: Option<string>, contacts: seq<Contact>)
    ensures After(Opened(file), contacts).persistent
    ensures forall a :: a in After(Opened(file), contacts).pins <==>
              a in Reload(FileText(file)) || exists i :: 0 <= i < |contacts| && contacts[i].addr == a
  {
    if contacts == [] {
    } else {
      var before, c := contacts[..|contacts| - 1], contacts[|contacts| - 1];
      PinnedAddresses(file, before);
      assert forall i :: 0 <= i < |before| ==> contacts[i] == before[i];
    }
  }

  /** One more contact appends if it is such a first one itself. */
  lemma AppendsOneMore(file: Option<string>, contacts: seq<Contact>)
    requires contacts != []
    ensures var n := |contacts| - 1;
      Appends(file, contacts) <==> Appends(file, contacts[..n]) || IsWritableFirst(file, contacts, n)
  {
    var n := |contacts| - 1;
    var before := contacts[..n];
    forall i: nat | i < n ensures IsWritableFirst(file, contacts, i) <==> IsWritableFirst(file, before, i) {
      assert contacts[i] == before[i];
    }
  }

  lemma FirstIsUnpinned(file: Option<string>, contacts: seq<Contact>)
    requires contacts != []
    ensures var n := |contacts| - 1;
      IsWritableFirst(file, contacts, n) <==>
        contacts[n].writable && contacts[n].addr !in After(Opened(file), contacts[..n]).pins
  {
    var n := |contacts| - 1;
    PinnedAddresses(file, contacts[..n]);
    assert forall i :: 0 <= i < n ==> contacts[i] == contacts[..n][i];
  }

  lemma {:induction false} AppendsMeans(file: Option<string>, contacts: seq<Contact>)
    ensures Appends(file, contacts) <==> After(Opened(file), contacts).appended != []
  {
    if contacts == [] {
    } else {
      var before := contacts[..|contacts| - 1];
      AppendsMeans(file, before);
      PinnedAddresses(file, before);
      AppendsOneMore(file, contacts);
      FirstIsUnpinned(file, contacts);
    }
  }

  /**
   Reloading the file gives the pins in memory, except those whose append failed, exactly when the
   file it started from ended in a newline (or white space after one), or there was no first contact
   with a new address while the file could be appended to.
   */
  lemma ReloadAgreesExactlyWhen(file: Option<string>, contacts: seq<Contact>)
    requires AllPlain(contacts) && forall i :: 0 <= i < |contacts| ==> contacts[i].addr != contacts[i].fp
    ensures var s := After(Opened(file), contacts);
      Reload(FileText(s.file)) == s.pins - s.lost <==> Blank(Tail(FileText(file))) || !Appends(file, contacts)
  {
    AppendsMeans(file, contacts);
    if Blank(Tail(FileText(file))) || !Appends(file, contacts) {
      StaysInStep(file, contacts);
    } else {
      var addr, fp := UnfinishedLineGarbles(file, contacts);
      assert addr in After(Opened(file), contacts).pins - After(Opened(file), contacts).lost;
    }
  }

  lemma {:induction false} NothingLost(file: Option<string>, contacts: seq<Contact>)
    requires forall i :: 0 <= i < |contacts| ==> contacts[i].writable
    ensures After(Opened(file), contacts).lost == {}
  {
    if contacts == [] {
    } else {
      NothingLost(file, contacts[..|contacts| - 1]);
    }
  }

  /** With no failed append, the reloaded store is the one in memory: for empty and for finished files. */
  lemma ReloadGivesMemory(file: Option<string>, contacts: seq<Contact>)
    requires AllPlain(contacts) && forall i :: 0 <= i < |contacts| ==> contacts[i].writable
    requires Blank(Tail(FileText(file)))
    ensures Reload(FileText(After(Opened(file), contacts).file)) == After(Opened(file), contacts).pins
  {
    StaysInStep(file, contacts);
    NothingLost(file, contacts);
    AllPins(After(Opened(file), contacts).pins);
  }

  // ---------------------------------------------------------------- the store as it runs

  class PinStore {
    var path: string
    var pins: Pins
    var file: Option<string>
    ghost var appended: seq<(string, string)>
    ghost var lost: set<string>

    ghost function View(): Store
      reads this
    {
      Store(path != "", pins, file, appended, lost)
    }

    constructor ()
      ensures View() == Store(false, map[], None, [], {})
    {
      path, pins, file, appended, lost := "", map[], None, [], {};
    }

    /** `found` is what the path holds when it is opened; only a missing file is no error. */
    method LoadKnownPeers(path: string, found: Option<string>)
      modifies this
      ensures this.path == path && file == found && appended == old(appended) && lost == old(lost)
      ensures pins == Loaded(old(pins), ScanLines(FileText(found)))
    {
      this.path := path;
      file := found;
      if found.None? { return; }
      var lines := ScanLines(found.value);
      for i := 0 to |lines|
        invariant this.path == path && file == found && appended == old(appended) && lost == old(lost)
        invariant pins == Loaded(old(pins), lines[..i])
      {
        LoadedNext(old(pins), lines, i);
        var line := TrimSpace(lines[i]);
        if line == "" || HasPrefix(line, "#") { continue; }
        var parts := Fields(line);
        if |parts| >= 2 {
          pins := pins[parts[0] := parts[1]];
        }
      }
      assert lines[..|lines|] == lines;
    }

    /** checkAndPin with appendKnownPeer; false is the mismatch error. */
    method CheckAndPin(addr: string, fp: string, writable: bool) returns (accepted: bool)
      modifies this`pins, this`file, this`appended, this`lost
      ensures View() == Contacted(old(View()), Contact(addr, fp, writable))
      ensures accepted <==> Accepts(old(View()), Contact(addr, fp, writable))
    {
      var known := addr in pins;
      if !known {
        pins := pins[addr := fp];
      }
      if known {
        return pins[addr] == fp;
      }
      if path != "" {
        if writable {
          file := Some(FileText(file) + Entry(addr, fp));
          appended := appended + [(addr, fp)];
        } else {
          lost := lost + {addr};
        }
      }
      return true;
    }
  }
}
