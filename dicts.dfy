/**
 * Python dictionaries with string keys: pairs in insertion order. Assigning to a key
 * that is already present overwrites its value where it stands; a new key goes last.
 */
module Dicts {
  import opened Options

  type Dict<V> = seq<(string, V)>

  predicate HasKey<V>(d: Dict<V>, k: string) {
    exists i | 0 <= i < |d| :: d[i].0 == k
  }

  /** What every dictionary the programs build satisfies: no key twice. */
  predicate KeysUnique<V>(d: Dict<V>) {
    forall i, j | 0 <= i < j < |d| :: d[i].0 != d[j].0
  }

  /** The position of `k`, the first one should `d` hold it twice. */
  function Find<V>(d: Dict<V>, k: string): (r: Option<nat>)
    ensures r.Some? ==> r.value < |d| && d[r.value].0 == k && forall i | 0 <= i < r.value :: d[i].0 != k
    ensures r.None? <==> !HasKey(d, k)
    decreases |d|
  {
    if d == [] then None
    else if d[0].0 == k then Some(0)
    else
      match Find(d[1..], k)
      case None => None
      case Some(i) => Some(i + 1)
  }

  /** `d.get(k)`. */
  function Get<V>(d: Dict<V>, k: string): Option<V> {
    match Find(d, k)
    case None => None
    case Some(i) => Some(d[i].1)
  }

  /** `d[k] = v`. */
  function Put<V>(d: Dict<V>, k: string, v: V): Dict<V> {
    match Find(d, k)
    case Some(i) => d[i := (k, v)]
    case None => d + [(k, v)]
  }

  lemma FindAt<V>(d: Dict<V>, k: string, i: nat)
    requires i < |d| && d[i].0 == k && forall j | 0 <= j < i :: d[j].0 != k
    ensures Find(d, k) == Some(i)
  {
    assert HasKey(d, k);
  }

  /**
   * Assignment: the key now holds `v`, every other key keeps its value, keys stay where
   * they were (a new one is appended), and no key appears twice if none did before.
   */
  lemma PutFacts<V>(d: Dict<V>, k: string, v: V)
    ensures var r := Put(d, k, v);
      && Get(r, k) == Some(v)
      && (forall k' | k' != k :: Get(r, k') == Get(d, k'))
      && (forall k' :: HasKey(r, k') <==> HasKey(d, k') || k' == k)
      && |r| == |d| + (if HasKey(d, k) then 0 else 1)
      && (forall i | 0 <= i < |d| :: r[i].0 == d[i].0)
      && (KeysUnique(d) ==> KeysUnique(r))
  {
    var r := Put(d, k, v);
    match Find(d, k)
    case Some(i) =>
      FindAt(r, k, i);
      forall k' | k' != k
        ensures Get(r, k') == Get(d, k')
      {
        match Find(d, k')
        case None =>
          assert !HasKey(r, k');
        case Some(j) =>
          FindAt(r, k', j);
      }
      forall k' ensures HasKey(r, k') <==> HasKey(d, k') {
        if HasKey(r, k') {
          var j :| 0 <= j < |r| && r[j].0 == k';
          assert d[j].0 == k';
        }
        if HasKey(d, k') {
          var j :| 0 <= j < |d| && d[j].0 == k';
          assert r[j].0 == k';
        }
      }
    case None =>
      FindAt(r, k, |d|);
      forall k' | k' != k
        ensures Get(r, k') == Get(d, k')
      {
        match Find(d, k')
        case None =>
          assert !HasKey(r, k');
        case Some(j) =>
          FindAt(r, k', j);
      }
      forall k' ensures HasKey(r, k') <==> HasKey(d, k') || k' == k {
        if HasKey(d, k') {
          var j :| 0 <= j < |d| && d[j].0 == k';
          assert r[j].0 == k';
        }
      }
  }

  /** `d[k] = v` for each pair of `ps` in turn. */
  function PutAll<V>(d: Dict<V>, ps: seq<(string, V)>): Dict<V>
    decreases |ps|
  {
    if ps == [] then d else Put(PutAll(d, ps[..|ps| - 1]), ps[|ps| - 1].0, ps[|ps| - 1].1)
  }

  /** After a run of assignments a key holds the value of its last assignment. */
  lemma {:induction false} PutAllLastWins<V>(d: Dict<V>, ps: seq<(string, V)>, i: nat)
    requires i < |ps| && forall j | i < j < |ps| :: ps[j].0 != ps[i].0
    ensures Get(PutAll(d, ps), ps[i].0) == Some(ps[i].1)
    decreases |ps|
  {
    var n := |ps|;
    var q := ps[..n - 1];
    PutFacts(PutAll(d, q), ps[n - 1].0, ps[n - 1].1);
    if i < n - 1 {
      PutAllLastWins(d, q, i);
    }
  }

  /** A key that is never assigned keeps its old value (or stays absent). */
  lemma {:induction false} PutAllElsewhere<V>(d: Dict<V>, ps: seq<(string, V)>, k: string)
    requires forall j | 0 <= j < |ps| :: ps[j].0 != k
    ensures Get(PutAll(d, ps), k) == Get(d, k)
    decreases |ps|
  {
    if ps != [] {
      var q := ps[..|ps| - 1];
      PutAllElsewhere(d, q, k);
      PutFacts(PutAll(d, q), ps[|ps| - 1].0, ps[|ps| - 1].1);
    }
  }

  /** The keys afterwards are the old ones and the assigned ones, each listed once if they were before. */
  lemma {:induction false} PutAllKeys<V>(d: Dict<V>, ps: seq<(string, V)>)
    ensures forall k :: HasKey(PutAll(d, ps), k) <==> HasKey(d, k) || exists j | 0 <= j < |ps| :: ps[j].0 == k
    ensures KeysUnique(d) ==> KeysUnique(PutAll(d, ps))
    decreases |ps|
  {
    if ps != [] {
      var n := |ps|;
      var q := ps[..n - 1];
      PutAllKeys(d, q);
      PutFacts(PutAll(d, q), ps[n - 1].0, ps[n - 1].1);
      forall k | exists j | 0 <= j < n :: ps[j].0 == k
        ensures HasKey(PutAll(d, ps), k)
      {
        var j :| 0 <= j < n && ps[j].0 == k;
        if j < n - 1 {
          assert q[j].0 == k;
        }
      }
    }
  }

  /** Copying a dictionary item by item into an empty one gives the same dictionary. */
  lemma {:induction false} PutAllFresh<V>(ps: seq<(string, V)>)
    requires KeysUnique(ps)
    ensures PutAll([], ps) == ps
    decreases |ps|
  {
    if ps != [] {
      var n := |ps|;
      var q := ps[..n - 1];
      PutAllFresh(q);
      assert !HasKey(q, ps[n - 1].0);
      assert q + [ps[n - 1]] == ps;
    }
  }

  /** A dictionary object that is filled in place. */
  class Dictionary<V> {
    var items: Dict<V>

    constructor()
      ensures items == []
    {
      items := [];
    }

    /** `self[k] = v`. */
    method Set(k: string, v: V)
      modifies this
      ensures items == Put(old(items), k, v)
    {
      items := Put(items, k, v);
    }
  }
}
