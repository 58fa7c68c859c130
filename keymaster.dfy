/**
 * `keymaster_update` of the workbook importer: a registry, kept across all the pipes
 * imported, of the column names every table section has been seen with — either as a
 * plain set of names, or as a map from each name to the pipes that had it.
 */
module KeyMaster {
  import opened Options

  /** What one section records: just the names, or which pipes had each name. */
  datatype Registry = Keys(keys: set<string>) | Pipes(owners: map<string, set<Option<string>>>)

  /** The record a section starts with the first time it is updated. */
  function Fresh(withPipeNames: bool): Registry {
    if withPipeNames then Pipes(map[]) else Keys({})
  }

  /** Each name of `items`, in turn, gets `pipe` added to its set of pipes. */
  function AddOwner(owners: map<string, set<Option<string>>>, items: seq<string>, pipe: Option<string>)
    : map<string, set<Option<string>>>
    decreases |items|
  {
    if items == [] then owners
    else
      var m := AddOwner(owners, items[..|items| - 1], pipe);
      var k := items[|items| - 1];
      m[k := (if k in m then m[k] else {}) + {pipe}]
  }

  /**
   * The registry after an update, or `None` for the two mismatches: a section kept as a
   * set cannot take pipe names (it has no `setdefault`), and a plain list given to a
   * section kept as a map is refused. The source's `dict.update` raises there unless
   * every name has two characters, in which case it stores the first character as a
   * key and the second as its value; that outcome is not modelled.
   * An update that goes through touches only its own section, creating it if needed.
   */
  function Updated(sections: map<string, Registry>, section: string, items: seq<string>,
                   withPipeNames: bool, pipe: Option<string>): (r: Option<map<string, Registry>>)
    ensures r.None? <==> items != [] && section in sections && sections[section].Pipes? != withPipeNames
    ensures r.Some? ==>
      && r.value.Keys == sections.Keys + {section}
      && (forall s | s in sections && s != section :: r.value[s] == sections[s])
      && (section !in sections ==> r.value[section].Pipes? == withPipeNames)
  {
    var reg := if section in sections then sections[section] else Fresh(withPipeNames);
    if items == [] then Some(sections[section := reg])
    else if withPipeNames && reg.Pipes? then Some(sections[section := Pipes(AddOwner(reg.owners, items, pipe))])
    else if !withPipeNames && reg.Keys? then Some(sections[section := Keys(reg.keys + set k | k in items)])
    else None
  }

  /**
   * Every name listed gets the pipe among its owners; names not listed keep their
   * owners; nothing is removed.
   */
  lemma {:induction false} AddOwnerClosedForm(owners: map<string, set<Option<string>>>, items: seq<string>, pipe: Option<string>)
    ensures var m := AddOwner(owners, items, pipe);
      && (forall k :: k in m <==> k in owners || k in items)
      && (forall k | k in m ::
            m[k] == (if k in owners then owners[k] else {}) + (if k in items then {pipe} else {}))
    decreases |items|
  {
    if items != [] {
      var p := items[..|items| - 1];
      AddOwnerClosedForm(owners, p, pipe);
      assert forall k :: k in items <==> k in p || k == items[|items| - 1] by {
        assert items == p + [items[|items| - 1]];
      }
    }
  }

  /** A plain update leaves exactly the old names and the listed ones. */
  lemma UpdatedKeys(sections: map<string, Registry>, section: string, items: seq<string>)
    requires section in sections ==> sections[section].Keys?
    ensures var r := Updated(sections, section, items, false, None);
      && r.Some? && r.value[section].Keys?
      && forall k :: k in r.value[section].keys <==>
           (section in sections && k in sections[section].keys) || k in items
  {
  }

  /** An update with pipe names adds the pipe to exactly the listed names. */
  lemma UpdatedOwners(sections: map<string, Registry>, section: string, items: seq<string>, pipe: Option<string>)
    requires section in sections ==> sections[section].Pipes?
    ensures var r := Updated(sections, section, items, true, pipe);
      var old_ := if section in sections then sections[section].owners else map[];
      && r.Some? && r.value[section].Pipes?
      && (forall k :: k in r.value[section].owners <==> k in old_ || k in items)
      && (forall k | k in items :: pipe in r.value[section].owners[k])
      && (forall k | k in old_ :: old_[k] <= r.value[section].owners[k])
      && (forall k | k in old_ && k !in items :: r.value[section].owners[k] == old_[k])
      && (forall k | k in items && k !in old_ :: r.value[section].owners[k] == {pipe})
  {
    var old_ := if section in sections then sections[section].owners else map[];
    AddOwnerClosedForm(old_, items, pipe);
  }

  /** The loop over the names that adds the pipe to each one's set. */
  method AddOwners(owners: map<string, set<Option<string>>>, items: seq<string>, pipe: Option<string>)
    returns (m: map<string, set<Option<string>>>)
    ensures m == AddOwner(owners, items, pipe)
  {
    m := owners;
    for i := 0 to |items|
      invariant m == AddOwner(owners, items[..i], pipe)
    {
      var k := items[i];
      var s := if k in m then m[k] else {};
      m := m[k := s + {pipe}];
      assert items[..i + 1][..i] == items[..i];
    }
    assert items[..|items|] == items;
  }

  /** The registry shared by all imports. */
  class KeyMaster {
    var sections: map<string, Registry>

    constructor()
      ensures sections == map[]
    {
      sections := map[];
    }

    /**
     * `keymaster_update(section, items, withPipeNames, pipe)`: `ok` is false where the
     * source raises, and the registry is then left as it was.
     */
    method Update(section: string, items: seq<string>, withPipeNames: bool, pipe: Option<string>) returns (ok: bool)
      modifies this
      ensures var r := Updated(old(sections), section, items, withPipeNames, pipe);
        ok == r.Some? && sections == if ok then r.value else old(sections)
    {
      var reg := if section in sections then sections[section] else Fresh(withPipeNames);
      if items != [] && withPipeNames != reg.Pipes? {
        return false;
      }
      sections := sections[section := reg];
      if items == [] {
        return true;
      }
      if withPipeNames {
        var owners := AddOwners(reg.owners, items, pipe);
        sections := sections[section := Pipes(owners)];
      } else {
        sections := sections[section := Keys(reg.keys + set k | k in items)];
      }
      ok := true;
    }
  }
}
