/**
 * `canonicalize_keys`: the feature dictionaries of a pipe, nested to any depth, with
 * every dictionary key put through `normalize_key`.
 */
module CanonKeys {
  import opened Options
  import opened Values
  import opened Dicts
  import opened FeatureKeys

  /** A feature value: a scalar, a dictionary (in insertion order) or a list. */
  datatype Json = Leaf(v: Cell) | Obj(entries: seq<(string, Json)>) | Arr(items: seq<Json>)

  /**
   * The canonical form of `j`: a dictionary gets its keys normalized and its values
   * canonicalized, later keys overwriting earlier ones that normalize alike; anything
   * else is returned as it is.
   */
  function Canonical(j: Json): (r: Json)
    ensures !j.Obj? ==> r == j
    ensures j.Obj? ==> r.Obj?
    decreases j, 1
  {
    match j
    case Obj(_) => Obj(PutAll([], CanonEntries(j)))
    case _ => j
  }

  /** The assignments the loop over a dictionary's items makes, in order. */
  function CanonEntries(j: Json): (ps: seq<(string, Json)>)
    requires j.Obj?
    ensures |ps| == |j.entries|
    decreases j, 0
  {
    var es := j.entries;
    seq(|es|, i requires 0 <= i < |es| => (NormalizeKey(es[i].0), CanonValue(es[i].1)))
  }

  /**
   * What a dictionary's value becomes: a dictionary is canonicalized, a list has each of
   * its dictionaries canonicalized (other items, lists included, stay as they are), and
   * a scalar stays.
   */
  function CanonValue(v: Json): (r: Json)
    decreases v, 2
  {
    match v
    case Obj(_) => Canonical(v)
    case Arr(items) => Arr(seq(|items|, i requires 0 <= i < |items| =>
                                 if items[i].Obj? then Canonical(items[i]) else items[i]))
    case Leaf(_) => v
  }

  /** The keys of a canonical dictionary are the normalized keys of the original, each once. */
  lemma CanonicalKeys(es: seq<(string, Json)>)
    ensures var d := Canonical(Obj(es)).entries;
      && KeysUnique(d)
      && forall k :: HasKey(d, k) <==> exists i | 0 <= i < |es| :: NormalizeKey(es[i].0) == k
  {
    var ps := CanonEntries(Obj(es));
    var empty: Dict<Json> := [];
    var d := PutAll(empty, ps);
    assert Canonical(Obj(es)).entries == d;
    PutAllKeys([], ps);
    forall k ensures HasKey(d, k) <==> exists i | 0 <= i < |es| :: NormalizeKey(es[i].0) == k {
      if exists i | 0 <= i < |es| :: NormalizeKey(es[i].0) == k {
        var i :| 0 <= i < |es| && NormalizeKey(es[i].0) == k;
        assert ps[i].0 == k;
      }
      if HasKey(d, k) {
        assert !HasKey(empty, k);
        var i :| 0 <= i < |ps| && ps[i].0 == k;
        assert NormalizeKey(es[i].0) == k;
      }
    }
  }

  /** Every key of a canonical dictionary is already in normal form. */
  lemma CanonicalKeysNormal(es: seq<(string, Json)>, k: string)
    requires HasKey(Canonical(Obj(es)).entries, k)
    ensures NormalizeKey(k) == k
  {
    CanonicalKeys(es);
    var i :| 0 <= i < |es| && NormalizeKey(es[i].0) == k;
    NormalizeKeyIdempotent(es[i].0);
  }

  /**
   * A normalized key holds the canonical value of the last original key that normalizes
   * to it.
   */
  lemma CanonicalLastWins(es: seq<(string, Json)>, i: nat)
    requires i < |es| && forall j | i < j < |es| :: NormalizeKey(es[j].0) != NormalizeKey(es[i].0)
    ensures Get(Canonical(Obj(es)).entries, NormalizeKey(es[i].0)) == Some(CanonValue(es[i].1))
  {
    PutAllLastWins([], CanonEntries(Obj(es)), i);
  }

  /** Dictionaries inside a list are canonicalized; every other item is left untouched. */
  lemma CanonValueList(items: seq<Json>, i: nat)
    requires i < |items|
    ensures var r := CanonValue(Arr(items));
      && r.Arr? && |r.items| == |items|
      && (items[i].Obj? ==> r.items[i] == Canonical(items[i]))
      && (!items[i].Obj? ==> r.items[i] == items[i])
  {
  }

  /**
   * `canonicalize_keys(data_dict)`: builds the result dictionary by assigning each item
   * in turn, recursing into dictionaries and into the dictionaries of lists.
   */
  method CanonicalizeKeys(j: Json) returns (r: Json)
    ensures r == Canonical(j)
    decreases j, 1
  {
    if !j.Obj? {
      return j;
    }
    var es := j.entries;
    var result: Dict<Json> := [];
    ghost var ps := CanonEntries(j);
    for i := 0 to |es|
      invariant result == PutAll([], ps[..i])
    {
      var key := es[i].0;
      var value := CanonicalizeValue(es[i].1);
      result := Put(result, NormalizeKey(key), value);
      assert ps[..i + 1][..i] == ps[..i];
    }
    assert ps[..|es|] == ps;
    r := Obj(result);
  }

  /** The value assigned for one item of a dictionary. */
  method CanonicalizeValue(v: Json) returns (r: Json)
    ensures r == CanonValue(v)
    decreases v, 2
  {
    match v {
      case Obj(_) =>
        r := CanonicalizeKeys(v);
      case Arr(items) =>
        var out: seq<Json> := [];
        for i := 0 to |items|
          invariant |out| == i
          invariant forall k | 0 <= k < i :: out[k] == CanonValue(v).items[k]
        {
          var item := items[i];
          if item.Obj? {
            item := CanonicalizeKeys(item);
          }
          out := out + [item];
        }
        r := Arr(out);
      case Leaf(_) =>
        r := v;
    }
  }
}
