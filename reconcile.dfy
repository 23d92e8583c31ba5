/**
 The reconcile step of `ensureProject` and the batch that drives it, as pure
 functions over an abstract remote directory. A directory maps a project id
 to the project's record; an id that is not a key is one whose fetch fails.
 Whether an edit call succeeds is chosen by the environment: for one step by
 a flag, for a batch by the set of ids whose edits the remote refuses.
 */
module Reconcile {
  import opened Strings

  type ProjectId = string

  /** GitLab's visibility levels; only equality between them is used. */
  datatype Visibility = Private | Internal | Public

  /** The part of a project record the reconcile loop looks at. */
  datatype Project = Project(id: ProjectId, name: string, visibility: Visibility)

  type Directory = map<ProjectId, Project>

  /** One `EditProject` call: the project it names and the visibility it sets. */
  datatype Edit = Edit(id: ProjectId, visibility: Visibility)

  /** Which remote call an error came from. */
  datatype Stage = Getting | Editing

  /** The terminal outcome of one unit of work. `Unchanged` and `Updated` are
      the two ways of returning nil. */
  datatype Outcome = Unchanged | Updated | Failed(stage: Stage)

  datatype StepResult = StepResult(directory: Directory, outcome: Outcome, emitted: seq<Project>, edits: seq<Edit>)

  datatype BatchResult = BatchResult(directory: Directory, outcomes: seq<Outcome>, emitted: seq<Project>, edits: seq<Edit>)

  /** Every record is filed under its own id, so that editing `proj.ID`
      edits the project that was fetched by `pid`. */
  ghost predicate WellKeyed(dir: Directory)
  {
    forall k :: k in dir ==> dir[k].id == k
  }

  /** The project exists and its visibility is not the target. */
  predicate Diverges(dir: Directory, k: ProjectId, v: Visibility)
  {
    k in dir && dir[k].visibility != v
  }

  /** The project diverges and the remote accepts the edit. */
  predicate Accepted(dir: Directory, k: ProjectId, v: Visibility, failing: set<ProjectId>)
  {
    Diverges(dir, k, v) && k !in failing
  }

  /** The unit of work for `k` ends in an error: the fetch fails, or the
      edit it needs is refused. */
  predicate FailsIn(dir: Directory, k: ProjectId, v: Visibility, failing: set<ProjectId>)
  {
    k !in dir || (Diverges(dir, k, v) && k in failing)
  }

  /** The reference definition of a reconciled directory: every project named
      in `ks` whose edit is accepted has visibility `v`, all else is as it was. */
  function Reconciled(dir: Directory, ks: set<ProjectId>, v: Visibility, failing: set<ProjectId>): (r: Directory)
    ensures r.Keys == dir.Keys
  {
    map k | k in dir :: if k in ks && Accepted(dir, k, v, failing) then dir[k].(visibility := v) else dir[k]
  }

  /** `ensureProject(pid, v, ch)`: fetch; on failure stop with an error; if
      the visibility is already `v` do nothing; otherwise issue one edit of
      the fetched project's id to `v` and, when it succeeds, emit the record
      the edit returns. */
  function Step(dir: Directory, pid: ProjectId, v: Visibility, editOk: bool): (r: StepResult)
    ensures |r.edits| <= 1 && |r.emitted| <= 1
    ensures r.emitted != [] <==> r.outcome == Updated
    ensures r.edits == [] ==> r.directory == dir && r.emitted == []
    ensures r.outcome.Failed? ==> r.directory == dir && r.emitted == []
  {
    if pid !in dir then StepResult(dir, Failed(Getting), [], [])
    else
      var proj := dir[pid];
      if proj.visibility == v then StepResult(dir, Unchanged, [], [])
      else if !editOk then StepResult(dir, Failed(Editing), [], [Edit(proj.id, v)])
      else
        var edited := proj.(visibility := v);
        StepResult(dir[proj.id := edited], Updated, [edited], [Edit(proj.id, v)])
  }

  /** The three cases of one step, each with its whole effect. */
  lemma StepContract(dir: Directory, pid: ProjectId, v: Visibility, editOk: bool)
    requires WellKeyed(dir)
    ensures var r := Step(dir, pid, v, editOk);
      && WellKeyed(r.directory)
      && (pid !in dir ==>
            r.outcome == Failed(Getting) && r.edits == [] && r.emitted == [] && r.directory == dir)
      && (pid in dir && dir[pid].visibility == v ==>
            r.outcome == Unchanged && r.edits == [] && r.emitted == [] && r.directory == dir)
      && (pid in dir && dir[pid].visibility != v ==>
            && r.edits == [Edit(pid, v)]
            && (editOk ==>
                  && r.outcome == Updated
                  && r.emitted == [dir[pid].(visibility := v)]
                  && r.directory == dir[pid := dir[pid].(visibility := v)])
            && (!editOk ==>
                  r.outcome == Failed(Editing) && r.emitted == [] && r.directory == dir))
  {
  }

  /** The loop of `main` run sequentially: one step per id, in order, each
      on the directory the previous steps left. */
  function Batch(dir: Directory, ids: seq<ProjectId>, v: Visibility, failing: set<ProjectId>): (r: BatchResult)
    ensures |r.outcomes| == |ids|
    decreases |ids|
  {
    if ids == [] then BatchResult(dir, [], [], [])
    else
      var first := Step(dir, ids[0], v, ids[0] !in failing);
      var rest := Batch(first.directory, ids[1..], v, failing);
      BatchResult(rest.directory, [first.outcome] + rest.outcomes,
                  first.emitted + rest.emitted, first.edits + rest.edits)
  }

  /** The batch over a suffix of the ids begins with the step for its first
      id; stated after what the earlier steps already produced. */
  lemma {:induction false} BatchSuffix(dir: Directory, ids: seq<ProjectId>, i: nat, v: Visibility, failing: set<ProjectId>,
                                       outcomes: seq<Outcome>, emitted: seq<Project>, edits: seq<Edit>)
    requires i < |ids|
    ensures var first := Step(dir, ids[i], v, ids[i] !in failing);
      var b := Batch(dir, ids[i..], v, failing);
      var rest := Batch(first.directory, ids[i + 1..], v, failing);
      && b.directory == rest.directory
      && outcomes + b.outcomes == (outcomes + [first.outcome]) + rest.outcomes
      && emitted + b.emitted == (emitted + first.emitted) + rest.emitted
      && edits + b.edits == (edits + first.edits) + rest.edits
  {
    var suffix := ids[i..];
    assert suffix[0] == ids[i] && suffix[1..] == ids[i + 1..];
    var first := Step(dir, ids[i], v, ids[i] !in failing);
    var rest := Batch(first.directory, ids[i + 1..], v, failing);
    var b := Batch(dir, suffix, v, failing);
    assert b == BatchResult(rest.directory, [first.outcome] + rest.outcomes,
                            first.emitted + rest.emitted, first.edits + rest.edits);
    assert outcomes + ([first.outcome] + rest.outcomes) == (outcomes + [first.outcome]) + rest.outcomes;
    assert emitted + (first.emitted + rest.emitted) == (emitted + first.emitted) + rest.emitted;
    assert edits + (first.edits + rest.edits) == (edits + first.edits) + rest.edits;
  }

  /** A step leaves the directory reconciled over its one id. */
  lemma StepReconciles(dir: Directory, pid: ProjectId, v: Visibility, failing: set<ProjectId>)
    requires WellKeyed(dir)
    ensures Step(dir, pid, v, pid !in failing).directory == Reconciled(dir, {pid}, v, failing)
  {
  }

  /** After reconciling the ids in `ks`, an id is divergent (accepted) exactly
      when it was and was not just reconciled, and fails exactly when it did. */
  lemma ReconciledFacts(dir: Directory, ks: set<ProjectId>, v: Visibility, failing: set<ProjectId>, k: ProjectId)
    ensures var d := Reconciled(dir, ks, v, failing);
      && (Diverges(d, k, v) <==> Diverges(dir, k, v) && !(k in ks && Accepted(dir, k, v, failing)))
      && (Accepted(d, k, v, failing) <==> Accepted(dir, k, v, failing) && k !in ks)
      && (FailsIn(d, k, v, failing) <==> FailsIn(dir, k, v, failing))
  {
  }

  /** Reconciling in two rounds is reconciling the union at once. */
  lemma ReconciledCompose(dir: Directory, a: set<ProjectId>, b: set<ProjectId>, v: Visibility, failing: set<ProjectId>)
    ensures Reconciled(Reconciled(dir, a, v, failing), b, v, failing) == Reconciled(dir, a + b, v, failing)
  {
  }

  /** Reconciling keeps every record under its own id. */
  lemma ReconciledWellKeyed(dir: Directory, ks: set<ProjectId>, v: Visibility, failing: set<ProjectId>)
    requires WellKeyed(dir)
    ensures WellKeyed(Reconciled(dir, ks, v, failing))
  {
  }

  /** The ids of the emitted projects. */
  function EmittedIds(emitted: seq<Project>): set<ProjectId>
  {
    set p | p in emitted :: p.id
  }

  /** The ids named by the edit calls. */
  function EditedIds(edits: seq<Edit>): set<ProjectId>
  {
    set e | e in edits :: e.id
  }

  /** The set of ids a batch names; duplicates collapse. */
  function IdSet(ids: seq<ProjectId>): (ks: set<ProjectId>)
    ensures forall k :: k in ks <==> k in ids
  {
    set k | k in ids
  }

  /** The first step of a batch, and what it leaves for the rest. */
  lemma BatchUnfold(dir: Directory, ids: seq<ProjectId>, v: Visibility, failing: set<ProjectId>)
    requires WellKeyed(dir)
    requires ids != []
    ensures var first := Step(dir, ids[0], v, ids[0] !in failing);
      && first.directory == Reconciled(dir, {ids[0]}, v, failing)
      && WellKeyed(first.directory)
      && IdSet(ids) == {ids[0]} + IdSet(ids[1..])
  {
  }

  /** The batch leaves the directory reconciled over the SET of its ids: the
      final state does not depend on their order or on duplicates. */
  lemma {:induction false} BatchDirectory(dir: Directory, ids: seq<ProjectId>, v: Visibility, failing: set<ProjectId>)
    requires WellKeyed(dir)
    ensures Batch(dir, ids, v, failing).directory == Reconciled(dir, IdSet(ids), v, failing)
    decreases |ids|
  {
    if ids == [] {
      assert Reconciled(dir, {}, v, failing) == dir;
    } else {
      var first := Step(dir, ids[0], v, ids[0] !in failing);
      BatchUnfold(dir, ids, v, failing);
      BatchDirectory(first.directory, ids[1..], v, failing);
      ReconciledCompose(dir, {ids[0]}, IdSet(ids[1..]), v, failing);
    }
  }

  /** Failures are isolated: the unit of work for an id ends in an error
      exactly when that id's own fetch fails or its needed edit is refused,
      whatever happens to the other ids. */
  lemma {:induction false} BatchFailures(dir: Directory, ids: seq<ProjectId>, v: Visibility, failing: set<ProjectId>)
    requires WellKeyed(dir)
    ensures var r := Batch(dir, ids, v, failing);
      forall i :: 0 <= i < |ids| ==> (r.outcomes[i].Failed? <==> FailsIn(dir, ids[i], v, failing))
    decreases |ids|
  {
    if ids != [] {
      var r := Batch(dir, ids, v, failing);
      var first := Step(dir, ids[0], v, ids[0] !in failing);
      var tail := Batch(first.directory, ids[1..], v, failing);
      BatchUnfold(dir, ids, v, failing);
      BatchFailures(first.directory, ids[1..], v, failing);
      forall i | 0 <= i < |ids|
        ensures r.outcomes[i].Failed? <==> FailsIn(dir, ids[i], v, failing)
      {
        if i > 0 {
          assert r.outcomes[i] == tail.outcomes[i - 1];
          assert ids[i] == ids[1..][i - 1];
          ReconciledFacts(dir, {ids[0]}, v, failing, ids[i]);
        }
      }
    }
  }

  /** A write happens only on divergence: the edit calls name exactly the
      ids that diverge from the target, and every one sets the target. */
  lemma {:induction false} BatchEdits(dir: Directory, ids: seq<ProjectId>, v: Visibility, failing: set<ProjectId>)
    requires WellKeyed(dir)
    ensures var r := Batch(dir, ids, v, failing);
      && EditedIds(r.edits) == (set k | k in ids && Diverges(dir, k, v))
      && (forall e :: e in r.edits ==> e.visibility == v)
    decreases |ids|
  {
    if ids != [] {
      var r := Batch(dir, ids, v, failing);
      var first := Step(dir, ids[0], v, ids[0] !in failing);
      var tail := Batch(first.directory, ids[1..], v, failing);
      BatchUnfold(dir, ids, v, failing);
      StepContract(dir, ids[0], v, ids[0] !in failing);
      BatchEdits(first.directory, ids[1..], v, failing);
      assert r.edits == first.edits + tail.edits;
      forall k ensures (k in EditedIds(r.edits)) <==> (k in ids && Diverges(dir, k, v)) {
        ReconciledFacts(dir, {ids[0]}, v, failing, k);
        assert k in EditedIds(r.edits) <==> k in EditedIds(first.edits) || k in EditedIds(tail.edits);
      }
    }
  }

  /** Exactly the ids whose edit was accepted are emitted, each as its
      original record with the target visibility. */
  lemma {:induction false} BatchEmitted(dir: Directory, ids: seq<ProjectId>, v: Visibility, failing: set<ProjectId>)
    requires WellKeyed(dir)
    ensures var r := Batch(dir, ids, v, failing);
      && EmittedIds(r.emitted) == (set k | k in ids && Accepted(dir, k, v, failing))
      && (forall p :: p in r.emitted ==> p.id in dir && p == dir[p.id].(visibility := v))
    decreases |ids|
  {
    if ids != [] {
      var r := Batch(dir, ids, v, failing);
      var first := Step(dir, ids[0], v, ids[0] !in failing);
      var tail := Batch(first.directory, ids[1..], v, failing);
      BatchUnfold(dir, ids, v, failing);
      StepContract(dir, ids[0], v, ids[0] !in failing);
      BatchEmitted(first.directory, ids[1..], v, failing);
      assert r.emitted == first.emitted + tail.emitted;
      forall k ensures (k in EmittedIds(r.emitted)) <==> (k in ids && Accepted(dir, k, v, failing)) {
        ReconciledFacts(dir, {ids[0]}, v, failing, k);
        assert k in EmittedIds(r.emitted) <==> k in EmittedIds(first.emitted) || k in EmittedIds(tail.emitted);
      }
      forall p | p in r.emitted ensures p.id in dir && p == dir[p.id].(visibility := v) {
        if p in tail.emitted {
          ReconciledFacts(dir, {ids[0]}, v, failing, p.id);
        }
      }
    }
  }

  /** Idempotence: run again on the directory the first run left, with every
      refused edit still refused, the batch issues no successful edit, emits
      nothing and changes nothing. */
  lemma SecondRunQuiet(dir: Directory, ids: seq<ProjectId>, v: Visibility, failing: set<ProjectId>, failing': set<ProjectId>)
    requires WellKeyed(dir)
    requires failing <= failing'
    ensures var first := Batch(dir, ids, v, failing);
      var second := Batch(first.directory, ids, v, failing');
      && second.emitted == []
      && second.directory == first.directory
      && (forall i :: 0 <= i < |ids| ==> second.outcomes[i] != Updated)
  {
    var first := Batch(dir, ids, v, failing);
    var d1 := first.directory;
    var ks := IdSet(ids);
    BatchDirectory(dir, ids, v, failing);
    ReconciledWellKeyed(dir, ks, v, failing);
    forall k | k in ids ensures !Accepted(d1, k, v, failing') {
      ReconciledFacts(dir, ks, v, failing, k);
    }
    QuietBatch(d1, ids, v, failing');
  }

  /** A batch in which no id's edit is accepted changes nothing, emits
      nothing and updates nothing. */
  lemma {:induction false} QuietBatch(dir: Directory, ids: seq<ProjectId>, v: Visibility, failing: set<ProjectId>)
    requires WellKeyed(dir)
    requires forall k :: k in ids ==> !Accepted(dir, k, v, failing)
    ensures var r := Batch(dir, ids, v, failing);
      && r.emitted == []
      && r.directory == dir
      && (forall i :: 0 <= i < |ids| ==> r.outcomes[i] != Updated)
    decreases |ids|
  {
    if ids != [] {
      var first := Step(dir, ids[0], v, ids[0] !in failing);
      StepContract(dir, ids[0], v, ids[0] !in failing);
      assert ids[0] in ids && !Accepted(dir, ids[0], v, failing);
      assert first.directory == dir && first.emitted == [] && first.outcome != Updated;
      assert forall k :: k in ids[1..] ==> k in ids;
      QuietBatch(dir, ids[1..], v, failing);
      var r := Batch(dir, ids, v, failing);
      var tail := Batch(dir, ids[1..], v, failing);
      assert r.outcomes == [first.outcome] + tail.outcomes;
      forall i | 0 < i < |ids| ensures r.outcomes[i] != Updated {
        assert r.outcomes[i] == tail.outcomes[i - 1];
      }
    }
  }

  /** The first unit of work for an id ends as that id's step would on the
      directory the batch started from: the earlier steps, all for other ids,
      leave its record alone. */
  lemma {:induction false} BatchFirstOccurrence(dir: Directory, ids: seq<ProjectId>, v: Visibility, failing: set<ProjectId>, i: nat)
    requires WellKeyed(dir)
    requires i < |ids|
    requires ids[i] !in ids[..i]
    ensures Batch(dir, ids, v, failing).outcomes[i] == Step(dir, ids[i], v, ids[i] !in failing).outcome
    decreases |ids|
  {
    if i > 0 {
      var first := Step(dir, ids[0], v, ids[0] !in failing);
      StepContract(dir, ids[0], v, ids[0] !in failing);
      assert ids[0] in ids[..i];
      assert ids[1..][i - 1] == ids[i];
      assert ids[1..][..i - 1] == ids[1..i];
      assert ids[i] !in ids[1..i] by {
        forall j | 1 <= j < i ensures ids[j] != ids[i] {
          assert ids[j] == ids[..i][j];
        }
      }
      BatchFirstOccurrence(first.directory, ids[1..], v, failing, i - 1);
      assert (ids[i] in first.directory <==> ids[i] in dir) &&
             (ids[i] in dir ==> first.directory[ids[i]] == dir[ids[i]]);
    }
  }

  /** A unit of work ends `Updated` only for an id whose edit is accepted. */
  lemma {:induction false} BatchUpdatedAccepted(dir: Directory, ids: seq<ProjectId>, v: Visibility, failing: set<ProjectId>, i: nat)
    requires WellKeyed(dir)
    requires i < |ids|
    ensures Batch(dir, ids, v, failing).outcomes[i] == Updated ==> Accepted(dir, ids[i], v, failing)
    decreases |ids|
  {
    var first := Step(dir, ids[0], v, ids[0] !in failing);
    StepReconciles(dir, ids[0], v, failing);
    ReconciledWellKeyed(dir, {ids[0]}, v, failing);
    if i > 0 {
      BatchUpdatedAccepted(first.directory, ids[1..], v, failing, i - 1);
      ReconciledFacts(dir, {ids[0]}, v, failing, ids[i]);
    }
  }

  /** `main`: reconcile every id of `KNOWN_OPEN` to public. */
  function EnsureKnownOpen(dir: Directory, knownOpen: string, failing: set<ProjectId>): (r: BatchResult)
    ensures |r.outcomes| == Count(knownOpen, ',') + 1
  {
    Batch(dir, SplitCommas(knownOpen), Public, failing)
  }

  /** What `main` reports: exactly the projects of `KNOWN_OPEN` that were not
      public and whose edit went through, and a second run reports nothing. */
  lemma KnownOpenReport(dir: Directory, knownOpen: string, failing: set<ProjectId>)
    requires WellKeyed(dir)
    ensures var r := EnsureKnownOpen(dir, knownOpen, failing);
      && |r.outcomes| == Count(knownOpen, ',') + 1
      && EmittedIds(r.emitted) == (set k | k in SplitCommas(knownOpen) && Accepted(dir, k, Public, failing))
      && EnsureKnownOpen(r.directory, knownOpen, failing).emitted == []
  {
    BatchEmitted(dir, SplitCommas(knownOpen), Public, failing);
    SecondRunQuiet(dir, SplitCommas(knownOpen), Public, failing, failing);
  }

  /** The three ids of the worked cases below, and how `KNOWN_OPEN` lists them. */
  lemma ThreeIds(knownOpen: string)
    requires knownOpen == "1,2,3"
    ensures SplitCommas(knownOpen) == ["1", "2", "3"]
    ensures "1" != "2" && "1" != "3" && "2" != "3"
  {
    var ids := ["1", "2", "3"];
    assert "1" != "2" && "1" != "3" && "2" != "3" by {
      assert "1"[0] != "2"[0] && "1"[0] != "3"[0] && "2"[0] != "3"[0];
    }
    assert DeleteAll(knownOpen, ' ') == knownOpen by {
      DeleteAllAbsent(knownOpen, ' ');
    }
    assert Join(ids, ',') == knownOpen by {
      assert ids[1..] == ["2", "3"] && ids[1..][1..] == ["3"];
    }
    SplitCommasUnique(knownOpen, ids);
  }

  /** Among the three ids, exactly `1` and `3` have their edit accepted. */
  lemma AcceptedOneAndThree(dir: Directory, ids: seq<ProjectId>)
    requires ids == ["1", "2", "3"]
    requires Accepted(dir, "1", Public, {}) && !Accepted(dir, "2", Public, {}) && Accepted(dir, "3", Public, {})
    ensures (set k | k in ids && Accepted(dir, k, Public, {})) == {"1", "3"}
  {
  }

  /** Three projects, `1` and `3` private and `2` public, all edits
      accepted: exactly `1` and `3` are reported. */
  lemma ThreeProjects(dir: Directory, knownOpen: string)
    requires knownOpen == "1,2,3"
    requires dir == map["1" := Project("1", "one", Private),
                        "2" := Project("2", "two", Public),
                        "3" := Project("3", "three", Private)]
    ensures EmittedIds(EnsureKnownOpen(dir, knownOpen, {}).emitted) == {"1", "3"}
    ensures EnsureKnownOpen(dir, knownOpen, {}).outcomes == [Updated, Unchanged, Updated]
  {
    var ids := SplitCommas(knownOpen);
    ThreeIds(knownOpen);
    assert WellKeyed(dir) by {
      forall k | k in dir ensures dir[k].id == k {
        assert k == "1" || k == "2" || k == "3";
      }
    }
    BatchEmitted(dir, ids, Public, {});
    AcceptedOneAndThree(dir, ids);
    FirstOccurrences(dir, ids, {});
  }

  /** The three distinct ids `1`, `2`, `3`: each unit of work ends as its
      step alone would. */
  lemma FirstOccurrences(dir: Directory, ids: seq<ProjectId>, failing: set<ProjectId>)
    requires WellKeyed(dir)
    requires ids == ["1", "2", "3"]
    ensures var r := Batch(dir, ids, Public, failing);
      forall i :: 0 <= i < 3 ==> r.outcomes[i] == Step(dir, ids[i], Public, ids[i] !in failing).outcome
  {
    assert ids[..0] == [] && ids[..1] == ["1"] && ids[..2] == ["1", "2"];
    BatchFirstOccurrence(dir, ids, Public, failing, 0);
    BatchFirstOccurrence(dir, ids, Public, failing, 1);
    BatchFirstOccurrence(dir, ids, Public, failing, 2);
  }

  /** The same batch when `2` cannot be fetched: `2` fails, and `1` and
      `3` are still reconciled and reported. */
  lemma ThreeProjectsOneMissing(dir: Directory, knownOpen: string)
    requires knownOpen == "1,2,3"
    requires dir == map["1" := Project("1", "one", Private),
                        "3" := Project("3", "three", Private)]
    ensures var r := EnsureKnownOpen(dir, knownOpen, {});
      && |r.outcomes| == 3
      && r.outcomes[1].Failed?
      && r.outcomes[0] == Updated && r.outcomes[2] == Updated
      && EmittedIds(r.emitted) == {"1", "3"}
  {
    var ids := SplitCommas(knownOpen);
    ThreeIds(knownOpen);
    assert WellKeyed(dir) by {
      forall k | k in dir ensures dir[k].id == k {
        assert k == "1" || k == "3";
      }
    }
    BatchEmitted(dir, ids, Public, {});
    BatchFailures(dir, ids, Public, {});
    assert FailsIn(dir, ids[1], Public, {});
    AcceptedOneAndThree(dir, ids);
    FirstOccurrences(dir, ids, {});
  }
}
