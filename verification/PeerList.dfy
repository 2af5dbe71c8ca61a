/** The list of discovered peers without loopback duplicates, filtered inside the array it came in. */
module PeerList {
  /** What the host part of a peer address parses to. */
  datatype Host = NoIP | Loopback | Routable

  predicate AnyRoutable(host: string -> Host, peers: seq<string>) {
    exists p :: p in peers && host(p) == Routable
  }

  function WithoutLoopback(host: string -> Host, peers: seq<string>): seq<string> {
    if peers == [] then []
    else
      var last := peers[|peers| - 1];
      WithoutLoopback(host, peers[..|peers| - 1]) + if host(last) == Loopback then [] else [last]
  }

  function Deduplicated(host: string -> Host, peers: seq<string>): seq<string> {
    if AnyRoutable(host, peers) then WithoutLoopback(host, peers) else peers
  }

  lemma {:induction false} WithoutLoopbackMembers(host: string -> Host, peers: seq<string>)
    ensures |WithoutLoopback(host, peers)| <= |peers|
    ensures forall p :: p in WithoutLoopback(host, peers) <==> p in peers && host(p) != Loopback
  {
    if peers == [] {
    } else {
      var init := peers[..|peers| - 1];
      WithoutLoopbackMembers(host, init);
      assert peers == init + [peers[|peers| - 1]];
    }
  }

  /**
   A loopback address survives exactly when there is no routable one, and every other address
   always does; so a list with an address in it never comes out empty.
   */
  lemma DeduplicatedMembers(host: string -> Host, peers: seq<string>)
    ensures forall p :: p in Deduplicated(host, peers) <==>
              p in peers && (host(p) != Loopback || !AnyRoutable(host, peers))
    ensures peers != [] ==> Deduplicated(host, peers) != []
  {
    WithoutLoopbackMembers(host, peers);
    if AnyRoutable(host, peers) {
      var p :| p in peers && host(p) == Routable;
      assert p in WithoutLoopback(host, peers);
    } else if peers != [] {
      assert peers[0] in peers;
    }
  }

  /** What survives keeps its order and its number: lists are filtered piece by piece. */
  lemma {:induction false} FilteredInOrder(host: string -> Host, a: seq<string>, b: seq<string>)
    ensures WithoutLoopback(host, a + b) == WithoutLoopback(host, a) + WithoutLoopback(host, b)
  {
    if b == [] {
      assert a + b == a;
    } else {
      FilteredInOrder(host, a, b[..|b| - 1]);
      assert (a + b)[..|a + b| - 1] == a + b[..|b| - 1];
    }
  }

  lemma FilteredOne(host: string -> Host, p: string)
    ensures WithoutLoopback(host, [p]) == if host(p) == Loopback then [] else [p]
  {
    assert [p][..0] == [];
  }

  /** deduplicatePeers: the result is the first `n` elements of the array that was given. */
  method DeduplicatePeers(host: string -> Host, peers: array<string>) returns (n: nat)
    modifies peers
    ensures n <= peers.Length && peers[..n] == Deduplicated(host, old(peers[..]))
  {
    ghost var all := peers[..];
    var hasNonLoopback := false;
    for i := 0 to peers.Length
      invariant !hasNonLoopback && forall k :: 0 <= k < i ==> host(peers[k]) != Routable
    {
      if host(peers[i]) == Routable {
        assert all[i] in all;
        hasNonLoopback := true;
        break;
      }
    }
    if !hasNonLoopback {
      return peers.Length;
    }
    n := 0;
    for i := 0 to peers.Length
      invariant n <= i && forall k :: i <= k < peers.Length ==> peers[k] == all[k]
      invariant peers[..n] == WithoutLoopback(host, all[..i])
    {
      var p := peers[i];
      assert all[..i + 1][..i] == all[..i];
      if host(p) != Loopback {
        peers[n] := p;
        n := n + 1;
      }
    }
    assert all[..peers.Length] == all;
  }
}
