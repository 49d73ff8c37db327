/** Repeated runs of a campaign (campaigns/stage8.py). */
module CampaignRuns {
  import opened Wrappers
  import opened Sorting
  import opened Counting
  import opened Schedule
  import opened CampaignLog

  // When a campaign completes, what crashes leave for good, and the registered design.

  /** A completed run recorded its schedule, in order, with the registered number of
      observations of every kind. */
  lemma CompleteMeansWhole(dir: RunDir)
    requires dir.Valid() && dir.complete
    ensures dir.manifest.Some? && dir.log == Unique(Ids(dir.manifest.value))
    ensures Distinct(Ids(dir.manifest.value)) ==> dir.log == Ids(dir.manifest.value)
    ensures forall kind: Kind :: |Select(dir.log, kind)| == ExpectedCount(kind)
    ensures forall kind: Kind :: kind in dir.raw && RowIds(dir.raw[kind]) == Select(dir.log, kind)
  {
    var ids := Ids(dir.manifest.value);
    dir.AllRowsAreTheLog();
    WholeLog(ids, dir.log);
    UniqueIsDistinct(ids);
    forall kind: Kind ensures |Select(dir.log, kind)| == ExpectedCount(kind) {
      assert dir.Lines()(kind) == |RowIds(dir.raw[kind])|;
    }
  }

  /** The validator accepts a completed run again, its checksums included. */
  lemma CompleteStaysValid(dir: RunDir)
    requires dir.Valid() && dir.complete
    ensures dir.seal.rawSums == Some(dir.Files())
    ensures dir.seal.integritySums == dir.seal.fileManifest && dir.seal.fileManifest.Some?
    ensures dir.seal.fileManifest.value.raw == dir.Files() && dir.Accepts(dir.seal)
  {
  }

  lemma {:induction false} SelectCounts(observations: seq<Scheduled>, kind: Kind)
    ensures |Select(Ids(observations), kind)| == Count(observations, HasKind(kind))
  {
    if observations != [] {
      var front, last := observations[..|observations|-1], observations[|observations|-1];
      SelectCounts(front, kind);
      assert observations == front + [last];
      assert Ids(observations) == Ids(front) + [last.id];
      SelectAppend(Ids(front), last.id);
      CountConcat(front, [last], HasKind(kind));
    }
  }

  /** A schedule built from a design with distinct names can only complete if the design
      has the registered number of observations of every kind. */
  lemma CompleteFitsDesign(c: Config, dir: RunDir)
    requires dir.Valid() && dir.complete && dir.manifest.Some?
    requires MeetsDesign(c, dir.manifest.value, ALL_KINDS) && NamesAreDistinct(c)
    ensures dir.log == Ids(dir.manifest.value)
    ensures forall kind: Kind :: Size(c, kind) == ExpectedCount(kind)
  {
    IdsAreDistinctIffNamesAre(c, dir.manifest.value);
    CompleteMeansWhole(dir);
    WellSizedIffFits(c, dir.manifest.value);
  }

  // Any sequence of runs.

  datatype Attempt = Attempt(registered: seq<Scheduled>, plan: Plan)

  method Run(dir: RunDir, a: Attempt) returns (o: Outcome)
    requires dir.Valid()
    modifies dir
    ensures dir.Valid() && old(dir.log) <= dir.log
    ensures old(dir.present) ==> dir.present && dir.manifest == old(dir.manifest) && dir.scheduleCopy == old(dir.scheduleCopy)
    ensures dir.complete <==> old(dir.complete) || o == Done
    ensures old(dir.complete) || (old(dir.present) && old(dir.manifest).None?) ==> o.Refused? && dir.log == old(dir.log)
    ensures old(Spoiled(dir.seal)) ==> dir.seal == old(dir.seal) && o != Done
  {
    ghost var reached;
    o, reached := dir.RunCampaign(a.registered, a.plan);
  }

  /** After a run that completed, the others are refused. */
  ghost predicate DoneOnce(outcomes: seq<Outcome>) {
    forall i, j :: 0 <= i < j < |outcomes| && outcomes[i] == Done ==> outcomes[j].Refused?
  }

  ghost predicate AllRefused(outcomes: seq<Outcome>) {
    forall o :: o in outcomes ==> o.Refused?
  }

  lemma OneMoreOutcome(outcomes: seq<Outcome>, o: Outcome)
    requires DoneOnce(outcomes) && (Done in outcomes ==> o.Refused?)
    ensures DoneOnce(outcomes + [o]) && (Done in outcomes + [o] <==> Done in outcomes || o == Done)
    ensures AllRefused(outcomes + [o]) <==> AllRefused(outcomes) && o.Refused?
  {
    assert o in outcomes + [o] && forall x :: x in outcomes ==> x in outcomes + [o];
  }

  /** Any number of runs on one directory, each of which may crash anywhere. */
  method RunRepeatedly(dir: RunDir, attempts: seq<Attempt>) returns (outcomes: seq<Outcome>)
    requires dir.Valid()
    modifies dir
    ensures dir.Valid() && |outcomes| == |attempts|
    ensures old(dir.log) <= dir.log && Distinct(dir.log)
    ensures old(dir.present) ==> dir.manifest == old(dir.manifest) && dir.scheduleCopy == old(dir.scheduleCopy)
    ensures dir.complete <==> old(dir.complete) || Done in outcomes
    ensures DoneOnce(outcomes)
    ensures dir.complete ==> dir.manifest.Some? && dir.log == Unique(Ids(dir.manifest.value))
    ensures old(dir.present) && old(dir.scheduleCopy).None? ==> !dir.complete && Done !in outcomes
    ensures old(Spoiled(dir.seal)) ==> !dir.complete && Done !in outcomes
    ensures old(dir.present) && old(dir.manifest).None? ==> dir.log == old(dir.log) && AllRefused(outcomes)
  {
    outcomes := [];
    for k := 0 to |attempts|
      invariant dir.Valid() && |outcomes| == k && old(dir.log) <= dir.log
      invariant old(dir.present) ==> dir.present && dir.manifest == old(dir.manifest) && dir.scheduleCopy == old(dir.scheduleCopy)
      invariant dir.complete <==> old(dir.complete) || Done in outcomes
      invariant old(Spoiled(dir.seal)) ==> dir.seal == old(dir.seal) && Done !in outcomes
      invariant DoneOnce(outcomes)
      invariant old(dir.present) && old(dir.manifest).None? ==> dir.log == old(dir.log) && AllRefused(outcomes)
    {
      var outcome := Run(dir, attempts[k]);
      OneMoreOutcome(outcomes, outcome);
      outcomes := outcomes + [outcome];
    }
    if dir.complete { CompleteMeansWhole(dir); }
  }

  // When a run completes.

  /** The row passes the checks of its kind, and its scenario decides its category. */
  predicate GoodRow(row: Row, categoryOf: string -> string) {
    row.schemaValid && row.accepted && (row.id.Infeasible? ==> row.category == categoryOf(row.id.scenario))
  }

  predicate GoodStep(id: ObservationId, step: Step, categoryOf: string -> string) {
    step.fate.Runs? && step.reading.Some? && GoodRow(RowOf(id, step.reading.value), categoryOf)
  }

  ghost predicate GoodRows(rows: seq<Row>, categoryOf: string -> string) {
    forall row :: row in rows ==> GoodRow(row, categoryOf)
  }

  ghost predicate GoodFiles(raw: map<Kind, seq<Row>>, categoryOf: string -> string) {
    forall kind: Kind :: kind in raw ==> GoodRows(raw[kind], categoryOf)
  }

  ghost predicate GoodSteps(ids: seq<ObservationId>, steps: nat -> Step, categoryOf: string -> string) {
    forall i: nat :: i < |ids| ==> GoodStep(ids[i], steps(i), categoryOf)
  }

  ghost predicate GoodReadings(ids: seq<ObservationId>, steps: nat -> Step, categoryOf: string -> string) {
    forall i: nat :: i < |ids| && steps(i).reading.Some? ==> GoodRow(RowOf(ids[i], steps(i).reading.value), categoryOf)
  }

  /** A run with its environment that measures good rows and does not crash before it finalizes. */
  ghost predicate SmoothToFinish(registered: seq<Scheduled>, plan: Plan, categoryOf: string -> string) {
    && plan.ready && plan.created >= CREATION_STEPS && plan.warmedUp && plan.readyToFinish
    && GoodSteps(Ids(registered), plan.steps, categoryOf)
  }

  /** One that does not crash at all. */
  ghost predicate Smooth(registered: seq<Scheduled>, plan: Plan, categoryOf: string -> string) {
    SmoothToFinish(registered, plan, categoryOf) && plan.finished >= FINISH_STEPS
  }

  /** Every identifier once, and as many of every kind as the validator expects. */
  ghost predicate WellSized(registered: seq<Scheduled>) {
    Distinct(Ids(registered)) && forall kind: Kind :: |Select(Ids(registered), kind)| == ExpectedCount(kind)
  }

  lemma GoodStepGoes(ids: seq<ObservationId>, i: nat, log: seq<ObservationId>, resume: bool, step: Step,
                     categoryOf: string -> string)
    requires i < |ids| && Distinct(ids) && (resume || log == []) && GoodStep(ids[i], step, categoryOf)
    ensures StepOutcome(ids, i, log, AlreadyDone(resume, log), step) == Done
  {
    assert forall k :: 0 <= k < i ==> ids[..i][k] == ids[k];
  }

  lemma FilesStayGood(before: map<Kind, seq<Row>>, after: map<Kind, seq<Row>>, ids: seq<ObservationId>,
                      steps: nat -> Step, categoryOf: string -> string)
    requires GoodFiles(before, categoryOf) && RowsGrow(before, after, ids, steps) && GoodReadings(ids, steps, categoryOf)
    ensures GoodFiles(after, categoryOf)
  {
    forall kind: Kind, row | kind in after && row in after[kind] ensures GoodRow(row, categoryOf) {
      assert kind in before && FileGrows(before[kind], after[kind], ids, steps);
      var k :| 0 <= k < |after[kind]| && after[kind][k] == row;
      if k < |before[kind]| {
        assert before[kind][k] in before[kind];
      } else {
        assert Measured(row, ids, steps);
      }
    }
  }

  /** The cells of a list of identifiers are counted whatever their order. */
  function InThisCell(cell: (string, nat, string)): ObservationId -> bool {
    (id: ObservationId) => id.Feasible? && (id.scenario, id.block, id.method_) == cell
  }

  lemma {:induction false} CellMultiplicity(ids: seq<ObservationId>, cell: (string, nat, string))
    ensures multiset(Cells(ids))[cell] == Count(ids, InThisCell(cell))
  {
    if ids != [] {
      var front, last := ids[..|ids|-1], ids[|ids|-1];
      CellMultiplicity(front, cell);
      assert ids == front + [last];
      CountConcat(front, [last], InThisCell(cell));
    }
  }

  lemma CellsOfPermutation(a: seq<ObservationId>, b: seq<ObservationId>)
    requires multiset(a) == multiset(b)
    ensures multiset(Cells(a)) == multiset(Cells(b))
  {
    forall cell ensures multiset(Cells(a))[cell] == multiset(Cells(b))[cell] {
      CellMultiplicity(a, cell);
      CellMultiplicity(b, cell);
      CountPermutation(a, b, InThisCell(cell));
    }
  }

  lemma SameDistinctMembers(a: seq<ObservationId>, b: seq<ObservationId>)
    requires Distinct(a) && Distinct(b) && AsSet(a) == AsSet(b)
    ensures multiset(a) == multiset(b)
  {
    DistinctIffMultiplicity(a);
    DistinctIffMultiplicity(b);
    forall id ensures multiset(a)[id] == multiset(b)[id] {
      assert id in multiset(a) <==> id in AsSet(a);
      assert id in multiset(b) <==> id in AsSet(b);
    }
  }

  /** Good rows of the scheduled identifiers, as many as expected, pass. */
  lemma GoodRowsPass(ids: seq<ObservationId>, rows: seq<Row>, lines: Kind -> nat, categoryOf: string -> string)
    requires Distinct(ids) && Distinct(RowIds(rows)) && AsSet(RowIds(rows)) == AsSet(ids) && GoodRows(rows, categoryOf)
    requires forall kind :: lines(kind) == ExpectedCount(kind)
    ensures Passes(ids, rows, lines)
  {
    SameDistinctMembers(ids, RowIds(rows));
    CellsOfPermutation(ids, RowIds(rows));
    assert forall k :: 0 <= k < |rows| ==> GoodRow(rows[k], categoryOf);
  }

  lemma LinesAreCounts(dir: RunDir)
    requires dir.Consistent()
    ensures forall kind: Kind :: dir.Lines()(kind) == |Select(dir.log, kind)|
  {
    forall kind: Kind ensures dir.Lines()(kind) == |Select(dir.log, kind)| {
      assert kind in dir.raw && dir.Lines()(kind) == |RowIds(dir.raw[kind])|;
    }
  }

  /** Good rows of a whole schedule pass exactly when it is well sized. */
  lemma WholeGoodLogPasses(dir: RunDir, registered: seq<Scheduled>, categoryOf: string -> string)
    requires dir.Consistent() && dir.log == Ids(registered) && GoodFiles(dir.raw, categoryOf)
    ensures Passes(Ids(registered), dir.AllRows(), dir.Lines()) <==> WellSized(registered)
  {
    dir.AllRowsAreTheLog();
    LinesAreCounts(dir);
    forall row | row in dir.AllRows() ensures GoodRow(row, categoryOf) {
      assert exists kind :: kind in dir.raw && row in dir.raw[kind];
    }
    if WellSized(registered) {
      GoodRowsPass(Ids(registered), dir.AllRows(), dir.Lines(), categoryOf);
    }
  }

  lemma SmoothReachesEnd(registered: seq<Scheduled>, plan: Plan, before: Contents, after: Contents, o: Outcome,
                         reached: nat, categoryOf: string -> string)
    requires SmoothToFinish(registered, plan, categoryOf) && Distinct(Ids(registered)) && (plan.resume || before.log == [])
    requires LoopRan(Ids(registered), AlreadyDone(plan.resume, before.log), plan.steps, before, after, o, reached)
    ensures reached == |registered|
  {
    if reached < |registered| {
      GoodStepGoes(Ids(registered), reached, before.log, plan.resume, plan.steps(reached), categoryOf);
    }
  }

  /** Whatever earlier runs left: a run that gets to its finalization is refused for a missing schedule
      copy, or for a schedule that is not well sized or a spoiled file manifest, and otherwise finalizes. */
  method RunToFinish(dir: RunDir, registered: seq<Scheduled>, plan: Plan, ghost categoryOf: string -> string)
      returns (o: Outcome)
    requires dir.Valid() && !dir.complete && dir.manifest in {None, Some(registered)} && (plan.resume || dir.log == [])
    requires SmoothToFinish(registered, plan, categoryOf) && Distinct(Ids(registered)) && GoodFiles(dir.raw, categoryOf)
    modifies dir
    ensures dir.Valid() && (dir.complete <==> o == Done)
    ensures o == Refused(MissingFile) <==> old(dir.present) && old(dir.scheduleCopy).None?
    ensures o.Refused? && o.error.ValidationFailed? <==>
              !(old(dir.present) && old(dir.scheduleCopy).None?) && !(WellSized(registered) && !old(Spoiled(dir.seal)))
    ensures CanFinish(registered, old(dir.present), old(dir.scheduleCopy), old(dir.seal)) ==>
              && o == (if plan.finished < FINISH_STEPS then Crashed(false) else Done)
              && dir.log == Ids(registered) && dir.manifest == dir.scheduleCopy == Some(registered)
              && GoodFiles(dir.raw, categoryOf)
              && dir.seal == Finalizing(old(dir.seal), dir.Files(), plan.finished)
    ensures !CanFinish(registered, old(dir.present), old(dir.scheduleCopy), old(dir.seal)) ==>
              o.Refused? && dir.seal == old(dir.seal)
    ensures old(dir.present) && old(dir.log) == Ids(registered) ==> dir.Files() == old(dir.Files())
    ensures old(dir.present) ==> dir.manifest == old(dir.manifest) && dir.scheduleCopy == old(dir.scheduleCopy)
    ensures old(dir.present) && old(dir.log) == Ids(registered) ==> dir.log == old(dir.log)
    ensures o == Done && old(dir.present) ==>
              (IndexIsCurrent(dir.Written()) <==> old(dir.log) != Ids(registered) || IndexIsCurrent(old(dir.Written())))
  {
    ghost var starts, before := dir.Starts(registered, plan), Prepared(dir.present, dir.Written());
    ghost var reached;
    UniqueIsDistinct(Ids(registered));
    o, reached := dir.RunCampaign(registered, plan);
    if starts {
      SmoothReachesEnd(registered, plan, before, dir.Written(), if reached < |registered| then o else Done, reached, categoryOf);
      FilesStayGood(before.raw, dir.raw, Ids(registered), plan.steps, categoryOf);
      WholeGoodLogPasses(dir, registered, categoryOf);
    }
  }

  /** The directory can be completed: it has its schedule copy or is still to be created, the
      schedule is well sized, and the file manifest is the one its checksum was taken of. */
  ghost predicate CanFinish(registered: seq<Scheduled>, present: bool, scheduleCopy: Option<seq<Scheduled>>, seal: Seal) {
    !(present && scheduleCopy.None?) && WellSized(registered) && !Spoiled(seal)
  }

  /** Whatever earlier runs left, a smooth run completes the campaign exactly when it can be completed. */
  method RunSmoothly(dir: RunDir, registered: seq<Scheduled>, plan: Plan, ghost categoryOf: string -> string)
      returns (o: Outcome)
    requires dir.Valid() && !dir.complete && dir.manifest in {None, Some(registered)} && (plan.resume || dir.log == [])
    requires Smooth(registered, plan, categoryOf) && Distinct(Ids(registered)) && GoodFiles(dir.raw, categoryOf)
    modifies dir
    ensures dir.Valid() && (dir.complete <==> o == Done)
    ensures o == Done <==> CanFinish(registered, old(dir.present), old(dir.scheduleCopy), old(dir.seal))
    ensures o == Refused(MissingFile) <==> old(dir.present) && old(dir.scheduleCopy).None?
    ensures o.Refused? && o.error.ValidationFailed? <==>
              !(old(dir.present) && old(dir.scheduleCopy).None?) && !(WellSized(registered) && !old(Spoiled(dir.seal)))
    ensures o == Done ==> dir.log == Ids(registered)
    ensures o == Done ==> dir.seal.fileManifest == Some(Listing(dir.Files(), old(dir.seal).markerLeft))
    ensures o != Done ==> dir.seal == old(dir.seal)
    ensures o == Done && old(dir.present) ==>
              (IndexIsCurrent(dir.Written()) <==> old(dir.log) != Ids(registered) || IndexIsCurrent(old(dir.Written())))
  {
    o := RunToFinish(dir, registered, plan, categoryOf);
  }

  // What crashes leave for good.

  /** A creation that stops between the directory and the schedule copy leaves a directory in
      which not even a smooth run completes; one that stops earlier or later does no harm. */
  method RunAfterCreationCrash(registered: seq<Scheduled>, created: nat, plan: Plan, ghost categoryOf: string -> string)
      returns (dir: RunDir, first: Outcome, second: Outcome)
    requires created < CREATION_STEPS && Smooth(registered, plan, categoryOf) && WellSized(registered)
    ensures fresh(dir) && dir.Valid() && first == Crashed(false)
    ensures second == if 1 <= created < 4 then Refused(MissingFile) else Done
  {
    dir := new RunDir();
    ghost var reached;
    first, reached := dir.RunCampaign(registered, plan.(created := created));
    second := RunSmoothly(dir, registered, plan, categoryOf);
  }

  function CrashingAt(steps: nat -> Step, last: nat): nat -> Step {
    (i: nat) => if i == last then steps(i).(fate := CrashAfterRow) else steps(i)
  }

  lemma CrashingReadsGood(registered: seq<Scheduled>, plan: Plan, last: nat, categoryOf: string -> string)
    requires Smooth(registered, plan, categoryOf)
    ensures GoodReadings(Ids(registered), CrashingAt(plan.steps, last), categoryOf)
  {
    forall i: nat | i < |registered| ensures GoodStep(Ids(registered)[i], plan.steps(i), categoryOf) {}
  }

  /** A first run that crashes between the last row and its index has everything in the log
      and everything but the last in the index. */
  lemma LastRowCrash(registered: seq<Scheduled>, plan: Plan, before: Contents, after: Contents, o: Outcome,
                     reached: nat, categoryOf: string -> string)
    requires Smooth(registered, plan, categoryOf) && Distinct(Ids(registered)) && registered != [] && before.log == []
    requires LoopRan(Ids(registered), AlreadyDone(plan.resume, []), CrashingAt(plan.steps, |registered| - 1),
                     before, after, o, reached)
    requires before.index == Some({}) && Distinct(after.log) && after.log <= Ids(registered)
    ensures reached == |registered| - 1 && o == Crashed(true)
    ensures after.log == Ids(registered) && !IndexIsCurrent(after)
  {
    var ids, last := Ids(registered), |registered| - 1;
    GoodStepGoes(ids, last, [], plan.resume, plan.steps(last), categoryOf);
    if reached < last {
      GoodStepGoes(ids, reached, [], plan.resume, plan.steps(reached), categoryOf);
    }
    assert StepOutcome(ids, last, [], AlreadyDone(plan.resume, []), CrashingAt(plan.steps, last)(last)) == Crashed(true);
    LastOnlyInLog(ids, before, after);
  }

  lemma LastOnlyInLog(ids: seq<ObservationId>, before: Contents, after: Contents)
    requires ids != [] && Distinct(ids) && before.log == [] && before.index == Some({})
    requires LogRan(ids, before, after, Crashed(true), |ids| - 1) && after.log <= ids
    ensures after.log == ids && !IndexIsCurrent(after)
  {
    var n, covered := |ids| - 1, after.log[..|after.log|-1];
    assert ids[n] == after.log[|after.log|-1] == ids[|after.log|-1];
    assert covered == ids[..n] && after.log == ids;
    FrontIsNotAll(ids);
    assert AsSet([]) == {};
  }

  lemma FrontIsNotAll(ids: seq<ObservationId>)
    requires ids != [] && Distinct(ids)
    ensures AsSet(ids[..|ids|-1]) != AsSet(ids)
  {
    var n := |ids| - 1;
    assert ids[n] in AsSet(ids);
    assert forall k :: 0 <= k < n ==> ids[..n][k] == ids[k];
  }

  /** A first run that is cut off between its last row and the index. */
  method RunUntilLastRow(registered: seq<Scheduled>, plan: Plan, ghost categoryOf: string -> string)
      returns (dir: RunDir, o: Outcome)
    requires Smooth(registered, plan, categoryOf) && Distinct(Ids(registered)) && registered != []
    ensures fresh(dir) && dir.Valid() && o == Crashed(true) && !dir.complete
    ensures dir.manifest == dir.scheduleCopy == Some(registered)
    ensures dir.log == Ids(registered) && !IndexIsCurrent(dir.Written()) && GoodFiles(dir.raw, categoryOf)
    ensures dir.seal == UNSEALED
  {
    dir := new RunDir();
    ghost var reached, before := 0, Prepared(false, dir.Written());
    UniqueIsDistinct(Ids(registered));
    var crashing := plan.(steps := CrashingAt(plan.steps, |registered| - 1));
    o, reached := dir.RunCampaign(registered, crashing);
    LastRowCrash(registered, plan, before, dir.Written(), if reached < |registered| then o else Done, reached, categoryOf);
    CrashingReadsGood(registered, plan, |registered| - 1, categoryOf);
    FilesStayGood(before.raw, dir.raw, Ids(registered), crashing.steps, categoryOf);
  }

  /** Two runs over any well-sized schedule that end in a completed campaign with a stale
      index: the resume has nothing left to append. */
  method CompleteWithStaleIndex(registered: seq<Scheduled>, plan: Plan, ghost categoryOf: string -> string)
      returns (dir: RunDir, first: Outcome, second: Outcome)
    requires Smooth(registered, plan, categoryOf) && plan.resume && WellSized(registered)
    ensures fresh(dir) && dir.Valid() && first == Crashed(true) && second == Done
    ensures dir.complete && dir.log == Ids(registered) && !IndexIsCurrent(dir.Written())
  {
    assert registered != [] by { assert registered == [] ==> |Select(Ids(registered), FeasibleKind)| == 0; }
    dir, first := RunUntilLastRow(registered, plan, categoryOf);
    second := RunSmoothly(dir, registered, plan, categoryOf);
  }

  // Crashes while finalizing.

  /** What a sequence of crashes leaves, by how many steps each finalization got done. */
  datatype Phase = Unmarked | Marked | Settled | Stuck

  function PhaseAfter(crashes: seq<nat>): Phase {
    if crashes == [] then Unmarked
    else NextPhase(PhaseAfter(crashes[..|crashes|-1]), crashes[|crashes|-1])
  }

  function NextPhase(phase: Phase, done: nat): Phase {
    match phase
    case Unmarked => if done == 4 then Marked else Unmarked
    case Marked => if done < 2 then Marked else if done == 2 then Stuck else Settled
    case Settled => Settled
    case Stuck => Stuck
  }

  /** The marker is left for the first time at `i`, and up to `end` no later run got to its file manifest. */
  ghost predicate MarkedAt(crashes: seq<nat>, i: nat, end: nat)
    requires end <= |crashes|
  {
    i < end && crashes[i] == 4 && (forall h :: 0 <= h < i ==> crashes[h] != 4) && forall h :: i < h < end ==> crashes[h] < 2
  }

  /** The marker has been left, and no later run got to its file manifest. */
  ghost predicate Waiting(crashes: seq<nat>) {
    exists i: nat :: MarkedAt(crashes, i, |crashes|)
  }

  /** The first crash that leaves the marker is followed, after runs that do not get to the file
      manifest, by one that writes it and no more. */
  ghost predicate SpoilsFinish(crashes: seq<nat>) {
    exists i: nat, j: nat :: i < j < |crashes| && MarkedAt(crashes, i, j) && crashes[j] == 2
  }

  lemma {:induction false} PhasesAre(crashes: seq<nat>)
    ensures PhaseAfter(crashes) == Unmarked <==> 4 !in crashes
    ensures PhaseAfter(crashes) == Marked <==> Waiting(crashes)
    ensures PhaseAfter(crashes) == Stuck <==> SpoilsFinish(crashes)
  {
    if crashes != [] {
      var front, last := crashes[..|crashes|-1], crashes[|crashes|-1];
      PhasesAre(front);
      assert crashes == front + [last];
      WaitingNext(front, last);
      SpoilsNext(front, last);
    }
  }

  lemma MarkedInFront(front: seq<nat>, last: nat, i: nat, end: nat)
    requires end <= |front|
    ensures MarkedAt(front + [last], i, end) <==> MarkedAt(front, i, end)
  {
    assert forall h :: 0 <= h < |front| ==> (front + [last])[h] == front[h];
  }

  lemma WaitingNext(front: seq<nat>, last: nat)
    ensures Waiting(front + [last]) <==> (4 !in front && last == 4) || (last < 2 && Waiting(front))
  {
    var all, n := front + [last], |front|;
    if i: nat :| MarkedAt(all, i, |all|) {
      if i < n {
        assert MarkedAt(all, i, n) && all[n] == last;
        MarkedInFront(front, last, i, n);
      } else {
        assert forall h :: 0 <= h < n ==> all[h] == front[h];
      }
    }
    if 4 !in front && last == 4 {
      assert forall h :: 0 <= h < n ==> all[h] == front[h] && front[h] in front;
      assert MarkedAt(all, n, n + 1);
    }
    if i: nat :| last < 2 && MarkedAt(front, i, n) {
      MarkedInFront(front, last, i, n);
      assert MarkedAt(all, i, n + 1);
    }
  }

  lemma SpoilsNext(front: seq<nat>, last: nat)
    ensures SpoilsFinish(front + [last]) <==> SpoilsFinish(front) || (last == 2 && Waiting(front))
  {
    var all, n := front + [last], |front|;
    if i: nat, j: nat :| i < j < n + 1 && MarkedAt(all, i, j) && all[j] == 2 {
      MarkedInFront(front, last, i, j);
      if j < n { assert front[j] == 2; }
    }
    if i: nat, j: nat :| i < j < n && MarkedAt(front, i, j) && front[j] == 2 {
      MarkedInFront(front, last, i, j);
      assert all[j] == 2;
    }
    if i: nat :| last == 2 && MarkedAt(front, i, n) {
      MarkedInFront(front, last, i, n);
      assert all[n] == 2;
    }
  }

  /** The files in each phase. */
  ghost predicate InPhase(seal: Seal, files: RawFiles, phase: Phase) {
    match phase
    case Unmarked => !seal.markerLeft && seal.fileManifest in {None, Some(Listing(files, false))}
                     && seal.integritySums in {None, seal.fileManifest}
    case Marked => seal.markerLeft && seal.fileManifest == seal.integritySums == Some(Listing(files, false))
    case Settled => seal.markerLeft && seal.fileManifest == seal.integritySums == Some(Listing(files, true))
    case Stuck => Spoiled(seal)
  }

  lemma StuckIsSpoiled(seal: Seal, files: RawFiles, phase: Phase)
    requires InPhase(seal, files, phase)
    ensures Spoiled(seal) <==> phase == Stuck
  {
  }

  lemma PhaseStep(seal: Seal, files: RawFiles, phase: Phase, done: nat)
    requires InPhase(seal, files, phase) && done < FINISH_STEPS
    ensures InPhase(if Spoiled(seal) then seal else Finalizing(seal, files, done), files, NextPhase(phase, done))
  {
  }

  /** A run that crashes while it finalizes, or before if the file manifest is spoiled. */
  method CrashWhileFinishing(dir: RunDir, registered: seq<Scheduled>, plan: Plan, done: nat, ghost phase: Phase,
                             ghost categoryOf: string -> string)
    requires dir.Valid() && !dir.complete && plan.resume && dir.manifest == dir.scheduleCopy == Some(registered)
    requires Smooth(registered, plan, categoryOf) && WellSized(registered) && GoodFiles(dir.raw, categoryOf)
    requires dir.log == Ids(registered) && InPhase(dir.seal, dir.Files(), phase) && done < FINISH_STEPS
    modifies dir
    ensures dir.Valid() && !dir.complete && dir.manifest == dir.scheduleCopy == Some(registered)
    ensures GoodFiles(dir.raw, categoryOf) && dir.log == Ids(registered)
    ensures InPhase(dir.seal, dir.Files(), NextPhase(phase, done))
  {
    PhaseStep(dir.seal, dir.Files(), phase, done);
    assert dir.present by { assert dir.manifest.Some?; }
    ghost var rawBefore := dir.raw;
    var o := RunToFinish(dir, registered, plan.(finished := done), categoryOf);
    assert dir.Files().rows == rawBefore;
  }

  /** A first run that records everything and then stops before it finalizes. */
  method RecordEverything(registered: seq<Scheduled>, plan: Plan, ghost categoryOf: string -> string)
      returns (dir: RunDir)
    requires Smooth(registered, plan, categoryOf) && WellSized(registered)
    ensures fresh(dir) && dir.Valid() && !dir.complete && dir.manifest == dir.scheduleCopy == Some(registered)
    ensures GoodFiles(dir.raw, categoryOf) && dir.log == Ids(registered) && dir.seal == UNSEALED
  {
    dir := new RunDir();
    var o := RunToFinish(dir, registered, plan.(finished := 0), categoryOf);
    assert Finalizing(UNSEALED, dir.Files(), 0) == UNSEALED;
  }

  /** A recorded campaign, finalized in vain once for every crash. */
  method CrashRepeatedly(registered: seq<Scheduled>, plan: Plan, crashes: seq<nat>, ghost categoryOf: string -> string)
      returns (dir: RunDir)
    requires Smooth(registered, plan, categoryOf) && plan.resume && WellSized(registered)
    requires forall k :: 0 <= k < |crashes| ==> crashes[k] < FINISH_STEPS
    ensures fresh(dir) && dir.Valid() && !dir.complete && dir.manifest == dir.scheduleCopy == Some(registered)
    ensures GoodFiles(dir.raw, categoryOf) && dir.log == Ids(registered)
    ensures InPhase(dir.seal, dir.Files(), PhaseAfter(crashes))
  {
    dir := RecordEverything(registered, plan, categoryOf);
    ghost var phase := Unmarked;
    for k := 0 to |crashes|
      invariant fresh(dir) && dir.Valid() && !dir.complete && dir.manifest == dir.scheduleCopy == Some(registered)
      invariant GoodFiles(dir.raw, categoryOf) && dir.log == Ids(registered)
      invariant phase == PhaseAfter(crashes[..k]) && InPhase(dir.seal, dir.Files(), phase)
    {
      CrashWhileFinishing(dir, registered, plan, crashes[k], phase, categoryOf);
      phase := NextPhase(phase, crashes[k]);
      assert crashes[..k+1][..k] == crashes[..k];
    }
    assert crashes[..|crashes|] == crashes;
  }

  /** However many finalizations crash and wherever: a smooth run completes the campaign afterwards
      unless they spoiled the file manifest, and is refused for ever if they did. */
  method RunAfterFinishCrashes(registered: seq<Scheduled>, plan: Plan, crashes: seq<nat>,
                               ghost categoryOf: string -> string)
      returns (dir: RunDir, o: Outcome)
    requires Smooth(registered, plan, categoryOf) && plan.resume && WellSized(registered)
    requires forall k :: 0 <= k < |crashes| ==> crashes[k] < FINISH_STEPS
    ensures fresh(dir) && dir.Valid() && (Spoiled(dir.seal) <==> SpoilsFinish(crashes))
    ensures if SpoilsFinish(crashes) then o.Refused? && o.error.ValidationFailed? else o == Done
  {
    dir := CrashRepeatedly(registered, plan, crashes, categoryOf);
    PhasesAre(crashes);
    StuckIsSpoiled(dir.seal, dir.Files(), PhaseAfter(crashes));
    o := RunSmoothly(dir, registered, plan, categoryOf);
  }

  /** Two crashes that no later run gets over: the first after the temporary marker is written,
      the second after the file manifest that lists it. */
  method SpoiledByTwoCrashes(registered: seq<Scheduled>, plan: Plan, ghost categoryOf: string -> string)
      returns (dir: RunDir, o: Outcome)
    requires Smooth(registered, plan, categoryOf) && plan.resume && WellSized(registered)
    ensures fresh(dir) && dir.Valid() && Spoiled(dir.seal) && o.Refused? && o.error.ValidationFailed?
    ensures dir.scheduleCopy == Some(registered) && dir.log == Ids(registered) && GoodFiles(dir.raw, categoryOf)
  {
    dir := CrashRepeatedly(registered, plan, [4, 2], categoryOf);
    assert [4, 2][..1] == [4] && [4][..0] == [];
    assert PhaseAfter([4]) == Marked;
    o := RunToFinish(dir, registered, plan, categoryOf);
  }

  // The registered design.

  const REGISTERED_METHODS :=
    ["bilateral_minimax_regret", "canonical_first_safe", "initiator_minimum_cost", "minimum_total_cost"]

  const REGISTERED_FEASIBLE :=
    ["low-risk-public-tool", "sensitive-enterprise-api", "critical-edge-command", "low-risk-quantum-ready-tool"]

  const REGISTERED_INFEASIBLE :=
    ["no-common-profile", "assurance-floor-conflict", "TLS-group-capability-conflict", "lease-policy-conflict",
     "multi-cause-conflict"]

  const REGISTERED_COMPONENTS :=
    ["policy_compilation", "commit_creation", "reveal_verification", "Pareto_computation", "minimax_regret_computation",
     "unsigned_contract_canonicalization", "ML-DSA-65_signing_and_verification", "ML-DSA-87_signing_and_verification",
     "conflict_certificate_generation", "IUS_verification", "state_trace_verification"]

  /** The design of the final campaign, over any list of attacks. */
  function RegisteredDesign(attacks: seq<string>): Config {
    Config(REGISTERED_METHODS, REGISTERED_FEASIBLE, REGISTERED_INFEASIBLE, attacks,
           ["low-risk-public-tool", "sensitive-enterprise-api"], [1, 2, 4, 8, 16], REGISTERED_COMPONENTS,
           3, 10, 30, 10, 10, 10)
  }

  lemma RegisteredNamesAreDistinct()
    ensures Distinct(REGISTERED_METHODS) && Distinct(REGISTERED_FEASIBLE) && Distinct(REGISTERED_INFEASIBLE)
    ensures Distinct(REGISTERED_COMPONENTS)
  {
  }

  /** With twenty different attacks the registered design has the sizes the validator expects. */
  lemma RegisteredDesignFits(attacks: seq<string>)
    requires Distinct(attacks) && |attacks| == 20
    ensures NamesAreDistinct(RegisteredDesign(attacks))
    ensures forall kind: Kind :: Size(RegisteredDesign(attacks), kind) == ExpectedCount(kind)
  {
    RegisteredNamesAreDistinct();
  }

  lemma WellSizedIffFits(c: Config, registered: seq<Scheduled>)
    requires MeetsDesign(c, registered, ALL_KINDS) && NamesAreDistinct(c)
    ensures WellSized(registered) <==> forall kind: Kind :: Size(c, kind) == ExpectedCount(kind)
  {
    IdsAreDistinctIffNamesAre(c, registered);
    forall kind: Kind ensures |Select(Ids(registered), kind)| == Size(c, kind) {
      SelectCounts(registered, kind);
      assert kind in ALL_KINDS;
    }
  }

  function GoodPlan(resume: bool): Plan {
    Plan(resume, true, CREATION_STEPS, true, (i: nat) => Step(Some(Reading(true, true, "")), Runs), true, FINISH_STEPS)
  }

  function SameCategory(): string -> string { (scenario: string) => "" }

  lemma GoodPlanIsSmooth(registered: seq<Scheduled>, resume: bool)
    ensures Smooth(registered, GoodPlan(resume), SameCategory())
  {
  }

  /** A campaign over the schedule of a design with distinct names completes without a crash
      exactly when the design has the sizes the validator expects. */
  method RunDesign(c: Config) returns (dir: RunDir, o: Outcome)
    requires NamesAreDistinct(c)
    ensures fresh(dir) && dir.Valid() && (dir.complete <==> o == Done)
    ensures o == Done <==> forall kind: Kind :: Size(c, kind) == ExpectedCount(kind)
  {
    var registered := DeterministicSchedule(c);
    IdsAreDistinctIffNamesAre(c, registered);
    WellSizedIffFits(c, registered);
    GoodPlanIsSmooth(registered, false);
    dir := new RunDir();
    o := RunSmoothly(dir, registered, GoodPlan(false), SameCategory());
  }

  /** The registered campaign itself can be spoiled by two crashes. */
  method RegisteredCampaignSpoiled(attacks: seq<string>) returns (dir: RunDir, o: Outcome)
    requires Distinct(attacks) && |attacks| == 20
    ensures fresh(dir) && dir.Valid() && Spoiled(dir.seal) && o.Refused?
  {
    var registered := DeterministicSchedule(RegisteredDesign(attacks));
    RegisteredDesignFits(attacks);
    WellSizedIffFits(RegisteredDesign(attacks), registered);
    GoodPlanIsSmooth(registered, true);
    dir, o := SpoiledByTwoCrashes(registered, GoodPlan(true), SameCategory());
  }

  /** The registered campaign itself can end complete with a stale index. */
  method RegisteredCampaignWithStaleIndex(attacks: seq<string>) returns (dir: RunDir, first: Outcome, second: Outcome)
    requires Distinct(attacks) && |attacks| == 20
    ensures fresh(dir) && dir.Valid() && dir.complete && !IndexIsCurrent(dir.Written())
    ensures first == Crashed(true) && second == Done
  {
    var registered := DeterministicSchedule(RegisteredDesign(attacks));
    RegisteredDesignFits(attacks);
    WellSizedIffFits(RegisteredDesign(attacks), registered);
    GoodPlanIsSmooth(registered, true);
    dir, first, second := CompleteWithStaleIndex(registered, GoodPlan(true), SameCategory());
  }
}
