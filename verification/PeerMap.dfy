/**
 The map from client ids to peers of driver-osc/src/NonSessionHandler.hpp, as the sequence of its
 entries in key order. Keys are strings in lexicographic order; an iterator is the key it points to,
 or nothing for the end, because map iterators survive insertions.
 */
module PeerMaps {
  import opened Wrappers

  datatype Signal = Signal(path: string, min: real, max: real, default: real)

  datatype Peer = Peer(id: string, signals: seq<Signal>)

  // ---- The order of keys ----

  predicate Less(a: string, b: string) {
    if b == [] then false
    else if a == [] then true
    else if a[0] != b[0] then a[0] < b[0]
    else Less(a[1..], b[1..])
  }

  lemma {:induction false} LessIsStrict(a: string, b: string)
    ensures Less(a, b) ==> !Less(b, a) && a != b
  {
    if a != [] && b != [] && a[0] == b[0] { LessIsStrict(a[1..], b[1..]); }
  }

  lemma {:induction false} LessIsTotal(a: string, b: string)
    ensures Less(a, b) || a == b || Less(b, a)
  {
    if a != [] && b != [] && a[0] == b[0] {
      LessIsTotal(a[1..], b[1..]);
      assert a == [a[0]] + a[1..] && b == [b[0]] + b[1..];
    }
  }

  lemma {:induction false} LessIsTransitive(a: string, b: string, c: string)
    requires Less(a, b) && Less(b, c)
    ensures Less(a, c)
  {
    if a != [] && b != [] && c != [] && a[0] == b[0] == c[0] {
      LessIsTransitive(a[1..], b[1..], c[1..]);
    }
  }

  /** The order written out: a proper prefix comes first, else the first character that differs decides. */
  lemma {:induction false} LessIsLexicographic(a: string, b: string)
    ensures Less(a, b) <==>
            || (|a| < |b| && a == b[..|a|])
            || exists k: nat :: k < |a| && k < |b| && DifferAt(a, b, k) && a[k] < b[k]
  {
    if a != [] && b != [] && a[0] == b[0] {
      LessIsLexicographic(a[1..], b[1..]);
      assert a == [a[0]] + a[1..] && b == [b[0]] + b[1..];
      if |a| < |b| { assert b[..|a|] == [b[0]] + b[1..][..|a| - 1]; }
      forall k: nat | k < |a[1..]| && k < |b[1..]|
        ensures DifferAt(a[1..], b[1..], k) <==> DifferAt(a, b, k + 1)
      {
        DifferInTail(a, b, k);
      }
      if k: nat :| k < |a| && k < |b| && DifferAt(a, b, k) && a[k] < b[k] {
        assert k > 0 && DifferAt(a[1..], b[1..], k - 1);
      }
    } else if a != [] && b != [] {
      assert DifferAt(a, b, 0);
      forall k: nat | 0 < k < |a| && k < |b| ensures a[..k] != b[..k] {
        assert a[..k][0] != b[..k][0];
      }
    }
  }

  /** The k-th characters are the first to differ. */
  predicate DifferAt(a: string, b: string, k: nat)
    requires k < |a| && k < |b|
  {
    a[..k] == b[..k] && a[k] != b[k]
  }

  lemma DifferInTail(a: string, b: string, k: nat)
    requires a != [] && b != [] && a[0] == b[0] && k < |a[1..]| && k < |b[1..]|
    ensures DifferAt(a[1..], b[1..], k) <==> DifferAt(a, b, k + 1)
  {
    assert a[..k + 1] == [a[0]] + a[1..][..k];
    assert b[..k + 1] == [b[0]] + b[1..][..k];
    if a[..k + 1] == b[..k + 1] { assert a[1..][..k] == a[..k + 1][1..] == b[..k + 1][1..] == b[1..][..k]; }
  }

  // ---- The map ----

  predicate Sorted(peers: seq<Peer>) {
    forall i, j :: 0 <= i < j < |peers| ==> Less(peers[i].id, peers[j].id)
  }

  predicate Known(peers: seq<Peer>, id: string) {
    exists i :: 0 <= i < |peers| && peers[i].id == id
  }

  function Ids(peers: seq<Peer>): seq<string> {
    seq(|peers|, i requires 0 <= i < |peers| => peers[i].id)
  }

  /** How many entries come before a key. */
  function Place(peers: seq<Peer>, id: string): (n: nat)
    ensures n <= |peers|
    ensures forall i :: 0 <= i < n ==> Less(peers[i].id, id)
    ensures n < |peers| ==> !Less(peers[n].id, id)
  {
    if peers == [] || !Less(peers[0].id, id) then 0
    else
      var n := 1 + Place(peers[1..], id);
      assert forall i :: 0 < i < n ==> peers[i] == peers[1..][i - 1];
      n
  }

  /** `emplace` of a new key. */
  function Emplace(peers: seq<Peer>, p: Peer): seq<Peer> {
    var n := Place(peers, p.id);
    peers[..n] + [p] + peers[n..]
  }

  lemma EmplaceAddsOne(peers: seq<Peer>, p: Peer)
    ensures |Emplace(peers, p)| == |peers| + 1
  {
  }

  lemma EmplaceKeepsSorted(peers: seq<Peer>, p: Peer)
    requires Sorted(peers) && !Known(peers, p.id)
    ensures Sorted(Emplace(peers, p))
  {
    var n := Place(peers, p.id);
    forall i | n <= i < |peers| ensures Less(p.id, peers[i].id) {
      LessIsTotal(p.id, peers[n].id);
      if i > n { LessIsTransitive(p.id, peers[n].id, peers[i].id); }
    }
  }

  lemma EmplaceAddsKey(peers: seq<Peer>, p: Peer, id: string)
    ensures Known(Emplace(peers, p), id) <==> Known(peers, id) || id == p.id
  {
    var n, r := Place(peers, p.id), Emplace(peers, p);
    if Known(peers, id) {
      var i :| 0 <= i < |peers| && peers[i].id == id;
      assert r[if i < n then i else i + 1] == peers[i];
    }
    if id == p.id { assert r[n].id == id; }
    if Known(r, id) {
      var i :| 0 <= i < |r| && r[i].id == id;
      if i != n { assert peers[if i < n then i else i - 1] == r[i]; }
    }
  }

  function Begin(peers: seq<Peer>): Option<string> {
    if peers == [] then None else Some(peers[0].id)
  }

  /** `++it` for an iterator at a key. */
  function Next(peers: seq<Peer>, id: string): Option<string> {
    if peers == [] then None
    else if peers[0].id == id then Begin(peers[1..])
    else Next(peers[1..], id)
  }

  lemma {:induction false} NextIsSuccessor(peers: seq<Peer>, i: nat)
    requires Sorted(peers) && i < |peers|
    ensures Next(peers, peers[i].id) == if i + 1 < |peers| then Some(peers[i + 1].id) else None
  {
    if i > 0 {
      LessIsStrict(peers[0].id, peers[i].id);
      NextIsSuccessor(peers[1..], i - 1);
    }
  }

  lemma IdsAreDistinct(peers: seq<Peer>, i: nat, j: nat)
    requires Sorted(peers) && i < |peers| && j < |peers| && peers[i].id == peers[j].id
    ensures i == j
  {
    if i < j { LessIsStrict(peers[i].id, peers[j].id); }
    if j < i { LessIsStrict(peers[j].id, peers[i].id); }
  }

  /** A key that sorts after the k-th entry leaves the entries up to it in place; one before shifts it. */
  lemma EmplaceShifts(peers: seq<Peer>, p: Peer, k: nat)
    requires Sorted(peers) && !Known(peers, p.id) && k < |peers|
    ensures var r := Emplace(peers, p);
            if Less(peers[k].id, p.id) then r[..k + 1] == peers[..k + 1]
            else r[k + 1] == peers[k] && Less(p.id, peers[k].id)
  {
    var n := Place(peers, p.id);
    LessIsTotal(p.id, peers[k].id);
    assert peers[k].id != p.id;
    if k < n {
    } else {
      if k > n { LessIsTransitiveVia(peers, p.id, n, k); }
      LessIsTotal(p.id, peers[n].id);
      assert peers[n].id != p.id;
      if k == n { LessIsStrict(p.id, peers[k].id); }
    }
  }

  lemma LessIsTransitiveVia(peers: seq<Peer>, id: string, n: nat, k: nat)
    requires Sorted(peers) && n < k < |peers| && !Less(peers[n].id, id) && !Known(peers, id)
    ensures Less(id, peers[k].id) && !Less(peers[k].id, id)
  {
    LessIsTotal(id, peers[n].id);
    assert peers[n].id != id;
    LessIsTransitive(id, peers[n].id, peers[k].id);
    LessIsStrict(id, peers[k].id);
  }

  /** Adds a signal to the peer with the given key. */
  function Register(peers: seq<Peer>, id: string, signal: Signal): (r: seq<Peer>)
    ensures |r| == |peers|
    ensures forall i :: 0 <= i < |peers| ==> r[i].id == peers[i].id
    ensures forall i :: 0 <= i < |peers| && peers[i].id != id ==> r[i] == peers[i]
    ensures forall i :: 0 <= i < |peers| && peers[i].id == id ==> r[i].signals == peers[i].signals + [signal]
  {
    seq(|peers|, i requires 0 <= i < |peers| =>
      if peers[i].id == id then peers[i].(signals := peers[i].signals + [signal]) else peers[i])
  }

  /** The number of signals of all peers. */
  function SignalCount(peers: seq<Peer>): nat {
    if peers == [] then 0 else |peers[0].signals| + SignalCount(peers[1..])
  }

  lemma {:induction false} SignalCountAppend(a: seq<Peer>, b: seq<Peer>)
    ensures SignalCount(a + b) == SignalCount(a) + SignalCount(b)
  {
    if a == [] {
      assert a + b == b;
    } else {
      assert (a + b)[1..] == a[1..] + b;
      SignalCountAppend(a[1..], b);
    }
  }

  lemma SignalCountEmplace(peers: seq<Peer>, p: Peer)
    ensures SignalCount(Emplace(peers, p)) == SignalCount(peers) + |p.signals|
  {
    var n := Place(peers, p.id);
    SignalCountAppend(peers[..n] + [p], peers[n..]);
    SignalCountAppend(peers[..n], [p]);
    SignalCountAppend(peers[..n], peers[n..]);
    assert peers[..n] + peers[n..] == peers;
  }

  lemma {:induction false} SignalCountRegister(peers: seq<Peer>, id: string, signal: Signal)
    requires Sorted(peers)
    ensures SignalCount(Register(peers, id, signal)) == SignalCount(peers) + (if Known(peers, id) then 1 else 0)
  {
    if peers != [] {
      SignalCountRegister(peers[1..], id, signal);
      assert Register(peers, id, signal)[1..] == Register(peers[1..], id, signal);
      KnownInTail(peers, id);
      if Known(peers[1..], id) {
        var i :| 0 <= i < |peers[1..]| && peers[1..][i].id == id;
        LessIsStrict(peers[0].id, peers[i + 1].id);
      }
    }
  }

  lemma KnownInTail(peers: seq<Peer>, id: string)
    requires peers != []
    ensures Known(peers, id) <==> peers[0].id == id || Known(peers[1..], id)
  {
    if Known(peers[1..], id) {
      var i :| 0 <= i < |peers[1..]| && peers[1..][i].id == id;
      assert peers[i + 1].id == id;
    }
    if Known(peers, id) && peers[0].id != id {
      var i :| 0 <= i < |peers| && peers[i].id == id;
      assert peers[1..][i - 1].id == id;
    }
  }
}
