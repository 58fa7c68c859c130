/**
 * `convert_to_canonic_form_features` and `convert_to_canonic_form_frames` of the workbook
 * importer: the feature dictionary gets canonical keys, and the eight tables of a pipe get
 * normalized column names, which are recorded in the key registry against the pipe.
 */
module CanonicForm {
  import opened Options
  import opened Values
  import opened Dicts
  import opened ImporterBlocks
  import opened ImporterColumns
  import opened KeyMaster
  import opened CanonKeys

  // ---------------------------------------------------------------- features

  /**
   * `convert_to_canonic_form_features`: a copy of the dictionary, canonicalized. A
   * dictionary holds each key once, so the copy is the dictionary itself.
   */
  method ConvertToCanonicFormFeatures(features: Dict<Json>) returns (r: Json)
    requires KeysUnique(features)
    ensures r == Canonical(Obj(features))
  {
    var copy: Dict<Json> := [];
    for i := 0 to |features|
      invariant copy == PutAll([], features[..i])
    {
      copy := Put(copy, features[i].0, features[i].1);
      assert features[..i + 1][..i] == features[..i];
    }
    assert features[..|features|] == features;
    PutAllFresh(features);
    r := CanonicalizeKeys(Obj(copy));
  }

  // ---------------------------------------------------------------- frames

  /** The tables every pipe has, in the order they are normalized. */
  const FrameNames: seq<string> :=
    ["phlogopite", "isotopic", "epma", "lam", "diamonds", "oxides", "petrochemy", "geochemy"]

  /** `df.columns`. */
  function Labels(f: Frame): (ls: seq<Cell>)
    ensures |ls| == |f.columns|
  {
    seq(|f.columns|, i requires 0 <= i < |f.columns| => f.columns[i].0)
  }

  /** `df.columns = names`. */
  function Relabelled(f: Frame, names: seq<string>): Frame
    requires |names| == |f.columns|
  {
    Frame(seq(|f.columns|, i requires 0 <= i < |f.columns| => (Some(TextV(names[i])), f.columns[i].1)))
  }

  /** The table after `normalize_columns`. */
  function NormalizedFrame(f: Frame): Frame {
    Relabelled(f, NormalizedNames(Labels(f)))
  }

  /**
   * A normalized table keeps its cells and has, in the same places, the normalized names
   * of its old labels as labels.
   */
  lemma NormalizedFrameColumns(f: Frame, i: nat)
    requires i < |f.columns|
    ensures var g := NormalizedFrame(f);
      && |g.columns| == |f.columns|
      && g.columns[i].1 == f.columns[i].1
      && g.columns[i].0 == Some(TextV(NormalizedNames(Labels(f))[i]))
      && NameShaped(NormalizedNames(Labels(f))[i])
  {
    NormalizedNameShaped(Labels(f), i);
  }

  /**
   * The loop of `convert_to_canonic_form_frames` from the table `names[0]` on: `acc` is
   * the result so far and `sections` the registry. A missing table (a `KeyError`) or a
   * registry that cannot take the names stops it with nothing, leaving the registry as
   * far as it got.
   */
  function CanonicFrames(frames: Dict<Frame>, pipe: string, acc: Dict<Frame>,
                         sections: map<string, Registry>, names: seq<string>)
    : (Option<Dict<Frame>>, map<string, Registry>)
    decreases |names|
  {
    if names == [] then (Some(acc), sections)
    else
      match Get(frames, names[0])
      case None => (None, sections)
      case Some(f) =>
        var g := NormalizedFrame(f);
        match Updated(sections, names[0], NormalizedNames(Labels(f)), true, Some(pipe))
        case None => (None, sections)
        case Some(s2) => CanonicFrames(frames, pipe, Put(acc, names[0], g), s2, names[1..])
  }

  /** A table that is not there stops the conversion. */
  lemma {:induction false} CanonicFramesMissing(frames: Dict<Frame>, pipe: string, acc: Dict<Frame>,
                                                sections: map<string, Registry>, names: seq<string>, i: nat)
    requires i < |names| && !HasKey(frames, names[i])
    ensures CanonicFrames(frames, pipe, acc, sections, names).0 == None
    decreases |names|
  {
    match Get(frames, names[0])
    case None =>
    case Some(f) =>
      assert i != 0;
      var u := Updated(sections, names[0], NormalizedNames(Labels(f)), true, Some(pipe));
      if u.Some? {
        var rest := names[1..];
        assert rest[i - 1] == names[i];
        var acc2 := Put(acc, names[0], NormalizedFrame(f));
        CanonicFramesMissing(frames, pipe, acc2, u.value, rest, i - 1);
      }
  }

  /**
   * After a successful conversion every listed table holds its normalized form, and
   * every other key keeps its table.
   */
  lemma {:induction false} CanonicFramesTables(frames: Dict<Frame>, pipe: string, acc: Dict<Frame>,
                                               sections: map<string, Registry>, names: seq<string>)
    requires CanonicFrames(frames, pipe, acc, sections, names).0.Some?
    ensures var res := CanonicFrames(frames, pipe, acc, sections, names).0.value;
      && (forall i | 0 <= i < |names| ::
            Get(frames, names[i]).Some? && Get(res, names[i]) == Some(NormalizedFrame(Get(frames, names[i]).value)))
      && (forall k | k !in names :: Get(res, k) == Get(acc, k))
    decreases |names|
  {
    if names != [] {
      var f := Get(frames, names[0]).value;
      var g := NormalizedFrame(f);
      var s2 := Updated(sections, names[0], NormalizedNames(Labels(f)), true, Some(pipe)).value;
      var acc2 := Put(acc, names[0], g);
      var res := CanonicFrames(frames, pipe, acc, sections, names).0.value;
      CanonicFramesTables(frames, pipe, acc2, s2, names[1..]);
      PutFacts(acc, names[0], g);
      forall i | 0 <= i < |names|
        ensures Get(frames, names[i]).Some? && Get(res, names[i]) == Some(NormalizedFrame(Get(frames, names[i]).value))
      {
        if i > 0 {
          assert names[1..][i - 1] == names[i];
        } else if names[0] in names[1..] {
          var j :| 0 <= j < |names[1..]| && names[1..][j] == names[0];
        }
      }
      forall k | k !in names ensures Get(res, k) == Get(acc, k) {
        assert k !in names[1..];
      }
    }
  }

  /** `pipe` is recorded as having column `c` in table `s`. */
  predicate Owns(sections: map<string, Registry>, s: string, c: string, pipe: string) {
    s in sections && sections[s].Pipes? && c in sections[s].owners && Some(pipe) in sections[s].owners[c]
  }

  /** An update with pipe names never takes a recorded pipe away. */
  lemma UpdatedKeepsOwns(sections: map<string, Registry>, section: string, items: seq<string>,
                         p: Option<string>, s: string, c: string, pipe: string)
    requires Owns(sections, s, c, pipe)
    requires Updated(sections, section, items, true, p).Some?
    ensures Owns(Updated(sections, section, items, true, p).value, s, c, pipe)
  {
    if s == section && items != [] {
      AddOwnerClosedForm(sections[s].owners, items, p);
    }
  }

  /** The rest of the conversion keeps what the registry has recorded. */
  lemma {:induction false} CanonicFramesKeepOwns(frames: Dict<Frame>, pipe: string, acc: Dict<Frame>,
                                                 sections: map<string, Registry>, names: seq<string>,
                                                 s: string, c: string, who: string)
    requires Owns(sections, s, c, who)
    ensures Owns(CanonicFrames(frames, pipe, acc, sections, names).1, s, c, who)
    decreases |names|
  {
    if names != [] && Get(frames, names[0]).Some? {
      var f := Get(frames, names[0]).value;
      var u := Updated(sections, names[0], NormalizedNames(Labels(f)), true, Some(pipe));
      if u.Some? {
        UpdatedKeepsOwns(sections, names[0], NormalizedNames(Labels(f)), Some(pipe), s, c, who);
        CanonicFramesKeepOwns(frames, pipe, Put(acc, names[0], NormalizedFrame(f)), u.value, names[1..], s, c, who);
      }
    }
  }

  /**
   * After a successful conversion the registry records the pipe against every
   * normalized column name of every listed table.
   */
  lemma {:induction false} CanonicFramesRecorded(frames: Dict<Frame>, pipe: string, acc: Dict<Frame>,
                                                 sections: map<string, Registry>, names: seq<string>, i: nat, j: nat)
    requires CanonicFrames(frames, pipe, acc, sections, names).0.Some?
    requires i < |names| && Get(frames, names[i]).Some?
    requires j < |NormalizedNames(Labels(Get(frames, names[i]).value))|
    ensures Owns(CanonicFrames(frames, pipe, acc, sections, names).1, names[i],
                 NormalizedNames(Labels(Get(frames, names[i]).value))[j], pipe)
    decreases |names|
  {
    var f := Get(frames, names[0]).value;
    var items := NormalizedNames(Labels(f));
    var s2 := Updated(sections, names[0], items, true, Some(pipe)).value;
    var acc2 := Put(acc, names[0], NormalizedFrame(f));
    if i == 0 {
      UpdatedOwners(sections, names[0], items, Some(pipe));
      assert Owns(s2, names[0], items[j], pipe);
      CanonicFramesKeepOwns(frames, pipe, acc2, s2, names[1..], names[0], items[j], pipe);
    } else {
      assert names[1..][i - 1] == names[i];
      CanonicFramesRecorded(frames, pipe, acc2, s2, names[1..], i - 1, j);
    }
  }

  /**
   * `convert_to_canonic_form_frames(frames, pipe_name)`: `None` where the source raises.
   * The registry keeps every update made before that point.
   */
  method ConvertToCanonicFormFrames(frames: Dict<Frame>, pipe: string, km: KeyMaster)
    returns (r: Option<Dict<Frame>>)
    modifies km
    ensures (r, km.sections) == CanonicFrames(frames, pipe, frames, old(km.sections), FrameNames)
  {
    var result := frames;
    for i := 0 to |FrameNames|
      invariant CanonicFrames(frames, pipe, result, km.sections, FrameNames[i..])
             == CanonicFrames(frames, pipe, frames, old(km.sections), FrameNames)
    {
      var fn := FrameNames[i];
      assert FrameNames[i..][1..] == FrameNames[i + 1..];
      var found := Get(frames, fn);
      if found.None? {
        return None;
      }
      var names := NormalizeColumns(Labels(found.value));
      var ok := km.Update(fn, names, true, Some(pipe));
      if !ok {
        return None;
      }
      result := Put(result, fn, Relabelled(found.value, names));
    }
    r := Some(result);
  }

  // ---------------------------------------------------------------- a pipe

  /** A pipe's data as the workbook reader gives it: its features and its tables, each possibly absent. */
  datatype PipeData = PipeData(features: Option<Dict<Json>>, frames: Option<Dict<Frame>>)

  /** A pipe's data in canonic form. */
  datatype CanonicData = CanonicData(features: Json, frames: Dict<Frame>)

  /**
   * What `convert_to_canonic_form` makes of a pipe's data, and the registry after it: an
   * absent part is read as an empty dictionary, the features are canonicalized, then the
   * tables are normalized; nothing where the tables cannot be.
   */
  function CanonicPipe(pipe: string, d: PipeData, sections: map<string, Registry>)
    : (Option<CanonicData>, map<string, Registry>)
  {
    var frames := d.frames.GetOr([]);
    var fr := CanonicFrames(frames, pipe, frames, sections, FrameNames);
    match fr.0
    case None => (None, fr.1)
    case Some(fs) => (Some(CanonicData(Canonical(Obj(d.features.GetOr([]))), fs)), fr.1)
  }

  /**
   * A pipe without tables cannot be put in canonic form: the first table looked up is
   * missing. With its tables, the result holds the canonical features and every table
   * normalized, each of its column names recorded against the pipe.
   */
  lemma CanonicPipeTables(pipe: string, d: PipeData, sections: map<string, Registry>, i: nat, j: nat)
    ensures d.frames.None? ==> CanonicPipe(pipe, d, sections).0 == None
    ensures var (r, s2) := CanonicPipe(pipe, d, sections);
      r.Some? && i < |FrameNames| ==>
        var f := Get(d.frames.GetOr([]), FrameNames[i]);
        && r.value.features == Canonical(Obj(d.features.GetOr([])))
        && f.Some?
        && Get(r.value.frames, FrameNames[i]) == Some(NormalizedFrame(f.value))
        && (j < |NormalizedNames(Labels(f.value))| ==>
              Owns(s2, FrameNames[i], NormalizedNames(Labels(f.value))[j], pipe))
  {
    var frames := d.frames.GetOr([]);
    if d.frames.None? {
      CanonicFramesMissing(frames, pipe, frames, sections, FrameNames, 0);
    }
    if CanonicFrames(frames, pipe, frames, sections, FrameNames).0.Some? && i < |FrameNames| {
      CanonicFramesTables(frames, pipe, frames, sections, FrameNames);
      if j < |NormalizedNames(Labels(Get(frames, FrameNames[i]).value))| {
        CanonicFramesRecorded(frames, pipe, frames, sections, FrameNames, i, j);
      }
    }
  }

  /**
   * `convert_to_canonic_form(tube)`: a pipe without data is returned as it is; otherwise
   * its features and tables in canonic form, or `None` where the source raises.
   */
  method ConvertToCanonicForm(pipe: string, data: Option<PipeData>, km: KeyMaster)
    returns (r: Option<(string, Option<CanonicData>)>)
    requires data.Some? && data.value.features.Some? ==> KeysUnique(data.value.features.value)
    modifies km
    ensures data.None? ==> r == Some((pipe, None)) && km.sections == old(km.sections)
    ensures data.Some? ==>
      var (c, s2) := CanonicPipe(pipe, data.value, old(km.sections));
      km.sections == s2 && r == if c.Some? then Some((pipe, Some(c.value))) else None
  {
    if data.None? {
      return Some((pipe, None));
    }
    var features := data.value.features.GetOr([]);
    var canonical := ConvertToCanonicFormFeatures(features);
    var frames := ConvertToCanonicFormFrames(data.value.frames.GetOr([]), pipe, km);
    if frames.None? {
      return None;
    }
    r := Some((pipe, Some(CanonicData(canonical, frames.value))));
  }
}
