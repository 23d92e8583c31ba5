/**
 The reconcile engine as the program runs it: a remote directory that the
 edit calls change in place, a log of the edit calls issued, and the channel
 of updated projects that `main` drains and reports. The goroutines are run
 one after another, in the order of the id list.
 */
module Engine {
  import opened Strings
  import opened Reconcile

  datatype Option<T> = None | Some(value: T)

  class Reconciler {
    /** The remote directory's records, keyed by project id. */
    var directory: Directory
    /** The projects sent on the channel, in send order. */
    var emitted: seq<Project>
    /** Every `EditProject` call issued, in order. */
    var edits: seq<Edit>

    ghost predicate Valid()
      reads this
    {
      WellKeyed(directory)
    }

    constructor (dir: Directory)
      requires WellKeyed(dir)
      ensures Valid()
      ensures directory == dir && emitted == [] && edits == []
    {
      directory := dir;
      emitted := [];
      edits := [];
    }

    /** `GetProject(pid)`: the record, or nothing when the fetch fails. */
    method GetProject(pid: ProjectId) returns (proj: Option<Project>)
      requires Valid()
      ensures proj.None? <==> pid !in directory
      ensures proj.Some? ==> proj.value == directory[pid] && proj.value.id == pid
    {
      if pid in directory {
        proj := Some(directory[pid]);
      } else {
        proj := None;
      }
    }

    /** `EditProject(id, visibility)`: one call, always logged; when the
        remote accepts it (`ok`) and knows the project, the record takes the
        new visibility and is returned. */
    method EditProject(id: ProjectId, v: Visibility, ok: bool) returns (proj: Option<Project>)
      requires Valid()
      modifies this
      ensures Valid()
      ensures edits == old(edits) + [Edit(id, v)]
      ensures emitted == old(emitted)
      ensures proj.Some? <==> ok && id in old(directory)
      ensures proj.Some? ==> proj.value == old(directory)[id].(visibility := v)
                             && directory == old(directory)[id := proj.value]
      ensures proj.None? ==> directory == old(directory)
    {
      edits := edits + [Edit(id, v)];
      if ok && id in directory {
        var edited := directory[id].(visibility := v);
        directory := directory[id := edited];
        proj := Some(edited);
      } else {
        proj := None;
      }
    }

    /** `ensureProject(pid, v, ch)`: its whole effect is one step of the
        reconcile function. */
    method EnsureProject(pid: ProjectId, v: Visibility, editOk: bool) returns (outcome: Outcome)
      requires Valid()
      modifies this
      ensures Valid()
      ensures var r := Step(old(directory), pid, v, editOk);
        && outcome == r.outcome
        && directory == r.directory
        && emitted == old(emitted) + r.emitted
        && edits == old(edits) + r.edits
    {
      var proj := GetProject(pid);
      if proj.None? {
        return Failed(Getting);
      }
      if proj.value.visibility != v {
        var edited := EditProject(proj.value.id, v, editOk);
        if edited.None? {
          return Failed(Editing);
        }
        emitted := emitted + [edited.value];
        return Updated;
      }
      return Unchanged;
    }

    /** The loop of `main` that starts one unit of work per id. */
    method EnsureAll(ids: seq<ProjectId>, v: Visibility, failing: set<ProjectId>) returns (outcomes: seq<Outcome>)
      requires Valid()
      modifies this
      ensures Valid()
      ensures var r := Batch(old(directory), ids, v, failing);
        && outcomes == r.outcomes
        && directory == r.directory
        && emitted == old(emitted) + r.emitted
        && edits == old(edits) + r.edits
    {
      ghost var whole := Batch(directory, ids, v, failing);
      ghost var emitted0, edits0 := emitted, edits;
      outcomes := [];
      var i := 0;
      while i < |ids|
        invariant 0 <= i <= |ids|
        invariant Valid()
        invariant whole.directory == Batch(directory, ids[i..], v, failing).directory
        invariant whole.outcomes == outcomes + Batch(directory, ids[i..], v, failing).outcomes
        invariant emitted0 + whole.emitted == emitted + Batch(directory, ids[i..], v, failing).emitted
        invariant edits0 + whole.edits == edits + Batch(directory, ids[i..], v, failing).edits
      {
        BatchSuffix(directory, ids, i, v, failing, outcomes, emitted, edits);
        var outcome := EnsureProject(ids[i], v, ids[i] !in failing);
        outcomes := outcomes + [outcome];
        i := i + 1;
      }
      assert ids[i..] == [];
    }

    /** The `for range ch` loop: the name of every project on the channel,
        in the order they were sent. */
    method ReportUpdated() returns (names: seq<string>)
      ensures |names| == |emitted|
      ensures forall i :: 0 <= i < |names| ==> names[i] == emitted[i].name
    {
      names := [];
      for i := 0 to |emitted|
        invariant |names| == i
        invariant forall j :: 0 <= j < i ==> names[j] == emitted[j].name
      {
        names := names + [emitted[i].name];
      }
    }

    /** `main`: a fresh channel, one unit of work per id of `KNOWN_OPEN` with
        target public, then the report of what was updated. */
    method RunKnownOpen(knownOpen: string, failing: set<ProjectId>) returns (report: seq<string>)
      requires Valid()
      modifies this
      ensures Valid()
      ensures var r := EnsureKnownOpen(old(directory), knownOpen, failing);
        && directory == r.directory
        && emitted == r.emitted
        && edits == old(edits) + r.edits
      ensures |report| == |emitted|
      ensures forall i :: 0 <= i < |report| ==> report[i] == emitted[i].name
    {
      emitted := [];
      var ids := SplitCommas(knownOpen);
      var outcomes := EnsureAll(ids, Public, failing);
      report := ReportUpdated();
    }
  }

  /** Two runs of `main` against the same directory with no change between
      them: the first reports exactly the names of the projects of
      `KNOWN_OPEN` that were not public and whose edit went through, and the
      second reports nothing. */
  method RunTwice(dir: Directory, knownOpen: string, failing: set<ProjectId>)
    returns (first: seq<string>, second: seq<string>, updated: set<ProjectId>)
    requires WellKeyed(dir)
    ensures updated == (set k | k in SplitCommas(knownOpen) && Accepted(dir, k, Public, failing))
    ensures forall k :: k in updated ==> k in dir && dir[k].name in first
    ensures forall n :: n in first <==> exists k :: k in updated && n == dir[k].name
    ensures second == []
  {
    var engine := new Reconciler(dir);
    first := engine.RunKnownOpen(knownOpen, failing);
    KnownOpenReport(dir, knownOpen, failing);
    BatchEmitted(dir, SplitCommas(knownOpen), Public, failing);
    updated := EmittedIds(engine.emitted);
    forall k | k in updated ensures dir[k].name in first {
      var p :| p in engine.emitted && p.id == k;
      var i :| 0 <= i < |engine.emitted| && engine.emitted[i] == p;
      assert first[i] == dir[k].name;
    }
    forall n | n in first ensures exists k :: k in updated && n == dir[k].name {
      var i :| 0 <= i < |first| && first[i] == n;
      var p := engine.emitted[i];
      assert p.id in updated && n == dir[p.id].name;
    }
    second := engine.RunKnownOpen(knownOpen, failing);
  }
}
