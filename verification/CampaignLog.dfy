/** The log of a campaign run (campaigns/stage8.py). */
module CampaignLog {
  import opened Wrappers
  import opened Sorting
  import opened Counting
  import opened Schedule

  // The log is append-only. A crash may come between any two steps of a run; a step that
  // writes one file either happens or does not. What a run measures and where it crashes
  // are parameters.

  /** A recorded observation. `schemaValid` is what the row schema says of it, `accepted`
      what the checks on rows of its kind say of it. */
  datatype Row = Row(id: ObservationId, schemaValid: bool, accepted: bool, category: string)

  datatype ValidationError = MissingObservations | UnscheduledObservations | DuplicateObservation
    | SchemaFailed | CountMismatch(kind: Kind) | RowRejected | CategoryNotDetermined | BlockBalanceMismatch
    | RawChecksumMismatch | IntegrityChecksumMismatch

  datatype CampaignError = NotReady | AlreadyComplete | MissingFile | DifferentRegistration | DuplicateInLog
    | MeasurementFailed | InvalidRow | AlreadyRecorded | ValidationFailed(errors: seq<ValidationError>)

  /** A crash leaves the index behind exactly when it comes after a row. */
  datatype Outcome = Done | Crashed(afterRow: bool) | Refused(error: CampaignError)

  /** What a measurement reports of an observation. */
  datatype Reading = Reading(schemaValid: bool, accepted: bool, category: string)

  /** How far an append gets: to its end, not to the row, or to the row but not to the index. */
  datatype Fate = Runs | CrashBefore | CrashAfterRow

  /** One position of the schedule: the reading, if the measurement succeeds, and the append. */
  datatype Step = Step(reading: Option<Reading>, fate: Fate)

  function RowOf(id: ObservationId, reading: Reading): Row {
    Row(id, reading.schemaValid, reading.accepted, reading.category)
  }

  /** How the loop answers at position `i`, when `before` was in the log at the start and
      the positions in between went well. */
  ghost function StepOutcome(ids: seq<ObservationId>, i: nat, before: seq<ObservationId>, done: set<ObservationId>,
                             step: Step): Outcome
    requires i < |ids|
  {
    RoundOutcome(ids[i] in done, ids[i] in before || ids[i] in ids[..i], step)
  }

  function AppendOutcome(schemaValid: bool, recorded: bool, fate: Fate): Outcome {
    if !schemaValid then Refused(InvalidRow)
    else if recorded then Refused(AlreadyRecorded)
    else if fate.Runs? then Done
    else Crashed(fate.CrashAfterRow?)
  }

  /** The loop goes well up to `reached`, and no further. */
  ghost predicate Reaches(ids: seq<ObservationId>, before: seq<ObservationId>, done: set<ObservationId>,
                          steps: nat -> Step, reached: nat) {
    && reached <= |ids|
    && AllWell(ids, before, done, steps, reached)
    && (reached < |ids| ==> StepOutcome(ids, reached, before, done, steps(reached)) != Done)
  }

  /** The row was measured at some position of the schedule. */
  ghost predicate Measured(row: Row, ids: seq<ObservationId>, steps: nat -> Step) {
    exists i: nat :: i < |ids| && steps(i).reading.Some? && row == RowOf(ids[i], steps(i).reading.value)
  }

  /** Every file keeps its rows and gets only measured ones. */
  ghost predicate RowsGrow(before: map<Kind, seq<Row>>, after: map<Kind, seq<Row>>, ids: seq<ObservationId>,
                           steps: nat -> Step) {
    forall kind: Kind :: kind in before && kind in after && FileGrows(before[kind], after[kind], ids, steps)
  }

  ghost predicate FileGrows(before: seq<Row>, after: seq<Row>, ids: seq<ObservationId>, steps: nat -> Step) {
    before <= after && forall k :: |before| <= k < |after| ==> Measured(after[k], ids, steps)
  }

  /** One row more for this position, or none. */
  ghost predicate RowsGrowBy(before: map<Kind, seq<Row>>, after: map<Kind, seq<Row>>, id: ObservationId, step: Step) {
    || after == before
    || (&& step.reading.Some? && KindOf(id) in before
        && after == before[KindOf(id) := before[KindOf(id)] + [RowOf(id, step.reading.value)]])
  }

  lemma RowsGrowMore(first: map<Kind, seq<Row>>, before: map<Kind, seq<Row>>, after: map<Kind, seq<Row>>,
                     ids: seq<ObservationId>, steps: nat -> Step, i: nat)
    requires i < |ids| && RowsGrow(first, before, ids, steps) && RowsGrowBy(before, after, ids[i], steps(i))
    ensures RowsGrow(first, after, ids, steps)
  {
    if after != before {
      var row := RowOf(ids[i], steps(i).reading.value);
      assert Measured(row, ids, steps);
      forall kind: Kind ensures kind in first && kind in after && FileGrows(first[kind], after[kind], ids, steps) {
        assert kind in first && kind in before && FileGrows(first[kind], before[kind], ids, steps);
        if kind == KindOf(ids[i]) { assert after[kind] == before[kind] + [row]; }
      }
    }
  }

  /** The part of the log that the last index written covers. */
  ghost function Covered(log: seq<ObservationId>, o: Outcome): seq<ObservationId> {
    if o == Crashed(true) && log != [] then log[..|log|-1] else log
  }

  /** What happens to a run: the environment checks before and after, how many steps the
      creation of the directory gets done, whether it crashes before the loop, what happens at
      every position, and how many steps the finalization gets done. */
  datatype Plan = Plan(resume: bool, ready: bool, created: nat, warmedUp: bool, steps: nat -> Step,
    readyToFinish: bool, finished: nat)

  // The files that finalizing a run writes.

  /** The files that checksums cover; a checksum stands for what it is taken of. */
  datatype RawFiles = RawFiles(rows: map<Kind, seq<Row>>, index: Option<set<ObservationId>>)

  /** What the file manifest lists: of the files outside `integrity`, the raw files and perhaps
      the temporary completion marker. The others do not change once the log is whole. */
  datatype Listing = Listing(raw: RawFiles, withMarker: bool)

  /** The checksums of the raw files, the file manifest, its checksum, and the temporary marker. */
  datatype Seal = Seal(rawSums: Option<RawFiles>, fileManifest: Option<Listing>, integritySums: Option<Listing>,
    markerLeft: bool)

  const UNSEALED := Seal(None, None, None, false)

  /** Raw checksums, file manifest, its checksum, temporary marker, and its renaming. */
  const FINISH_STEPS := 5

  /** The files after the first `done` steps of a finalization. */
  function Finalizing(seal: Seal, files: RawFiles, done: nat): Seal {
    var listing := Listing(files, seal.markerLeft);
    Seal(if done >= 1 then Some(files) else seal.rawSums,
         if done >= 2 then Some(listing) else seal.fileManifest,
         if done >= 3 then Some(listing) else seal.integritySums,
         done < FINISH_STEPS && (done == 4 || seal.markerLeft))
  }

  /** The file manifest is not the one that its checksum was taken of. */
  predicate Spoiled(seal: Seal) {
    seal.integritySums.Some? && seal.fileManifest != seal.integritySums
  }

  /** What every run keeps of these files: they cover the files as they are, and those only
      exist once the log is whole. */
  ghost predicate Sound(seal: Seal, files: RawFiles, whole: bool, complete: bool) {
    && (seal.rawSums.Some? ==> whole && seal.rawSums.value == files)
    && (seal.fileManifest.Some? ==> seal.rawSums.Some? && seal.fileManifest.value.raw == files)
    && (seal.integritySums.Some? ==> seal.fileManifest.Some? && seal.integritySums.value.raw == files)
    && (seal.markerLeft ==> seal.integritySums.Some?)
    && (seal.fileManifest.Some? && seal.fileManifest.value.withMarker ==> seal.markerLeft || complete)
    && (seal.integritySums.Some? && seal.integritySums.value.withMarker ==> seal.fileManifest.value.withMarker)
    && (complete ==> seal.integritySums.Some? && !Spoiled(seal))
  }

  lemma FinalizingIsSound(seal: Seal, files: RawFiles, done: nat)
    requires Sound(seal, files, true, false) && !Spoiled(seal)
    ensures Sound(Finalizing(seal, files, done), files, true, done >= FINISH_STEPS)
  {
  }

  /** What a run writes. */
  datatype Contents = Contents(raw: map<Kind, seq<Row>>, log: seq<ObservationId>, index: Option<set<ObservationId>>)

  /** What the loop makes of the files when it goes well up to `reached`. */
  ghost predicate LoopRan(ids: seq<ObservationId>, done: set<ObservationId>, steps: nat -> Step, before: Contents,
                          after: Contents, o: Outcome, reached: nat) {
    && Reaches(ids, before.log, done, steps, reached)
    && o == (if reached == |ids| then Done else StepOutcome(ids, reached, before.log, done, steps(reached)))
    && RowsGrow(before.raw, after.raw, ids, steps)
    && LogRan(ids, before, after, o, reached)
  }

  /** The identifiers before `reached` are in the log and in the index, and the one there is
      in the log alone if the crash came after its row. */
  ghost predicate LogRan(ids: seq<ObservationId>, before: Contents, after: Contents, o: Outcome, reached: nat)
    requires reached <= |ids|
  {
    var covered := Covered(after.log, o);
    && before.log <= covered
    && HasUpTo(ids, before.log, covered, reached)
    && (o == Crashed(true) ==> reached < |ids| && after.log == covered + [ids[reached]])
    && after.index == (if covered == before.log then before.index else Some(AsSet(covered)))
  }

  /** How one round answers. */
  function RoundOutcome(inDone: bool, recorded: bool, step: Step): Outcome {
    if inDone then Done
    else if step.reading.None? then Refused(MeasurementFailed)
    else AppendOutcome(step.reading.value.schemaValid, recorded, step.fate)
  }

  /** The log has what was there and what stands before position `i`. */
  ghost predicate HasUpTo(ids: seq<ObservationId>, before: seq<ObservationId>, log: seq<ObservationId>, i: nat)
    requires i <= |ids|
  {
    forall id :: id in log <==> id in before || id in ids[..i]
  }

  lemma HasUpToNext(ids: seq<ObservationId>, before: seq<ObservationId>, log: seq<ObservationId>,
                    after: seq<ObservationId>, i: nat)
    requires i < |ids| && HasUpTo(ids, before, log, i)
    requires after == log + [ids[i]] || (after == log && ids[i] in log)
    ensures HasUpTo(ids, before, after, i + 1)
  {
    assert ids[..i+1] == ids[..i] + [ids[i]];
  }

  /** What the campaign loop keeps: the log has what was there and what stands before
      position `i`, in the order of the schedule. */
  ghost predicate LogSoFar(ids: seq<ObservationId>, before: Contents, now: Contents, i: nat)
    requires i <= |ids|
  {
    && before.log <= now.log <= Unique(ids) && |Unique(ids[..i])| <= |now.log|
    && HasUpTo(ids, before.log, now.log, i)
    && now.index == (if now.log == before.log then before.index else Some(AsSet(now.log)))
  }

  /** The log's part of one round. */
  ghost predicate LogStepped(id: ObservationId, done: set<ObservationId>, now: Contents, after: Contents, o: Outcome) {
    && after.log == (if id !in done && o in {Done, Crashed(true)} then now.log + [id] else now.log)
    && after.index == (if id !in done && o == Done then Some(AsSet(after.log)) else now.index)
  }

  lemma LogGoesWell(ids: seq<ObservationId>, i: nat, done: set<ObservationId>, before: Contents, now: Contents,
                    after: Contents)
    requires i < |ids| && LogSoFar(ids, before, now, i) && done <= AsSet(before.log)
    requires LogStepped(ids[i], done, now, after, Done) && (ids[i] in done || ids[i] !in now.log)
    ensures LogSoFar(ids, before, after, i + 1)
  {
    NextScheduled(ids, i, now.log);
    if ids[i] in done { assert ids[i] in before.log; }
    HasUpToNext(ids, before.log, now.log, after.log, i);
  }

  lemma LogStops(ids: seq<ObservationId>, i: nat, done: set<ObservationId>, before: Contents, now: Contents,
                 after: Contents, o: Outcome)
    requires i < |ids| && LogSoFar(ids, before, now, i) && o != Done
    requires LogStepped(ids[i], done, now, after, o) && (o == Crashed(true) ==> ids[i] !in done && ids[i] !in now.log)
    ensures LogRan(ids, before, after, o, i) && after.log <= Unique(ids)
  {
    if o == Crashed(true) {
      NextScheduled(ids, i, now.log);
      CoveredOfAppend(now.log, ids[i]);
    }
  }

  lemma CoveredOfAppend(log: seq<ObservationId>, id: ObservationId)
    ensures Covered(log + [id], Crashed(true)) == log
  {
  }

  ghost predicate AllWell(ids: seq<ObservationId>, before: seq<ObservationId>, done: set<ObservationId>,
                          steps: nat -> Step, i: nat)
    requires i <= |ids|
  {
    forall j: nat :: j < i ==> StepOutcome(ids, j, before, done, steps(j)) == Done
  }

  /** What the campaign loop keeps. */
  ghost predicate Underway(ids: seq<ObservationId>, done: set<ObservationId>, steps: nat -> Step, before: Contents,
                           now: Contents, i: nat)
    requires i <= |ids|
  {
    AllWell(ids, before.log, done, steps, i) && LogSoFar(ids, before, now, i) && RowsGrow(before.raw, now.raw, ids, steps)
  }

  lemma AllWellMore(ids: seq<ObservationId>, before: seq<ObservationId>, done: set<ObservationId>, steps: nat -> Step,
                    i: nat)
    requires i < |ids| && AllWell(ids, before, done, steps, i) && StepOutcome(ids, i, before, done, steps(i)) == Done
    ensures AllWell(ids, before, done, steps, i + 1)
  {
  }

  lemma LoopEnds(ids: seq<ObservationId>, done: set<ObservationId>, steps: nat -> Step, before: Contents, now: Contents)
    requires Underway(ids, done, steps, before, now, |ids|)
    ensures LoopRan(ids, done, steps, before, now, Done, |ids|) && now.log <= Unique(ids)
  {
  }

  /** A round answers at position `i` as its place in the schedule says. */
  lemma RoundIsStep(ids: seq<ObservationId>, i: nat, done: set<ObservationId>, before: Contents, now: Contents,
                    step: Step, o: Outcome)
    requires i < |ids| && LogSoFar(ids, before, now, i) && o == RoundOutcome(ids[i] in done, ids[i] in now.log, step)
    ensures o == StepOutcome(ids, i, before.log, done, step)
    ensures o == Done ==> ids[i] in done || ids[i] !in now.log
    ensures o == Crashed(true) ==> ids[i] !in done && ids[i] !in now.log
  {
  }

  ghost predicate IndexIsCurrent(contents: Contents) {
    contents.index == Some(AsSet(contents.log))
  }

  /** The files when the loop starts: as found, or as created. */
  ghost function Prepared(present: bool, found: Contents): Contents {
    if present then found else Contents(found.raw, found.log, Some({}))
  }

  /** The answer of a run that does not get to its loop: it was not prepared, or crashed after. */
  function Stopped(opening: Outcome): Outcome {
    if opening != Done then opening else Crashed(false)
  }

  function AlreadyDone(resume: bool, log: seq<ObservationId>): set<ObservationId> {
    if resume then set id | id in log else {}
  }

  /** A loop that reached the end has recorded the whole schedule. */
  lemma FinishedLoop(ids: seq<ObservationId>, before: Contents, after: Contents)
    requires LogRan(ids, before, after, Done, |ids|)
    requires after.log <= Unique(ids) && Distinct(after.log)
    ensures after.log == Unique(ids)
  {
    assert ids[..|ids|] == ids;
    PrefixMembers(ids, after.log);
    assert AsSet(after.log) == AsSet(ids) by {
      forall id ensures id in after.log <==> id in ids { assert id in ids[..|ids|] <==> id in ids; }
    }
    WholeLog(ids, after.log);
  }

  lemma PrefixMembers(ids: seq<ObservationId>, log: seq<ObservationId>)
    requires log <= Unique(ids)
    ensures forall id :: id in log ==> id in ids
  {
    forall id | id in log ensures id in ids {
      var k :| 0 <= k < |log| && log[k] == id;
      assert Unique(ids)[k] == id;
    }
  }

  ghost predicate FilesAreLog(raw: map<Kind, seq<Row>>, log: seq<ObservationId>) {
    forall kind: Kind :: kind in raw && RowIds(raw[kind]) == Select(log, kind)
  }

  ghost predicate RowsAreValid(raw: map<Kind, seq<Row>>) {
    forall kind, k :: kind in raw && 0 <= k < |raw[kind]| ==> raw[kind][k].schemaValid
  }

  /** The files agree with the log after one row more. */
  lemma FilesAfterRow(raw: map<Kind, seq<Row>>, log: seq<ObservationId>, row: Row)
    requires FilesAreLog(raw, log) && KindOf(row.id) in raw
    ensures FilesAreLog(raw[KindOf(row.id) := raw[KindOf(row.id)] + [row]], log + [row.id])
  {
    var kind := KindOf(row.id);
    SelectAppend(log, row.id);
    assert RowIds(raw[kind] + [row]) == RowIds(raw[kind]) + [row.id];
  }

  lemma RowsStayValid(raw: map<Kind, seq<Row>>, row: Row)
    requires RowsAreValid(raw) && KindOf(row.id) in raw && row.schemaValid
    ensures RowsAreValid(raw[KindOf(row.id) := raw[KindOf(row.id)] + [row]])
  {
  }

  lemma StaysDistinct(log: seq<ObservationId>, id: ObservationId)
    requires Distinct(log) && id !in log
    ensures Distinct(log + [id])
  {
  }

  /** A loop over a whole log changes no file. */
  lemma FrozenLoop(ids: seq<ObservationId>, steps: nat -> Step, before: Contents, after: Contents, o: Outcome,
                   reached: nat)
    requires reached <= |ids| && LogRan(ids, before, after, o, reached) && RowsGrow(before.raw, after.raw, ids, steps)
    requires before.log == Unique(ids) && after.log <= Unique(ids)
    requires FilesAreLog(before.raw, before.log) && FilesAreLog(after.raw, after.log)
    ensures after.log == before.log && after.raw == before.raw && after.index == before.index
  {
    assert Covered(after.log, o) <= after.log;
    assert after.log == before.log;
    forall kind: Kind ensures kind in before.raw && kind in after.raw && after.raw[kind] == before.raw[kind] {
      assert FileGrows(before.raw[kind], after.raw[kind], ids, steps);
      assert |RowIds(after.raw[kind])| == |RowIds(before.raw[kind])|;
    }
    assert after.raw.Keys == before.raw.Keys;
  }

  /** A fresh loop over a log that has anything is refused at its first position. */
  lemma FreshLoop(ids: seq<ObservationId>, steps: nat -> Step, before: Contents, after: Contents, o: Outcome,
                  reached: nat)
    requires LoopRan(ids, {}, steps, before, after, o, reached)
    requires before.log != [] && before.log <= Unique(ids) && Distinct(after.log)
    ensures reached == 0 && |ids| > 0 && o.Refused? && after.log == before.log
  {
    assert ids != [] by { assert before.log[0] in Unique(ids); }
    FirstIsRecorded(ids, 0, before.log);
    assert StepOutcome(ids, 0, before.log, {}, steps(0)).Refused?;
    NothingNew(before.log, after.log);
  }

  /** How a loop that stops can be refused. */
  lemma StoppedLoop(ids: seq<ObservationId>, resume: bool, steps: nat -> Step, before: Contents, after: Contents,
                    o: Outcome, reached: nat)
    requires LoopRan(ids, AlreadyDone(resume, before.log), steps, before, after, o, reached)
    ensures o.Refused? ==> o.error in {MeasurementFailed, InvalidRow, AlreadyRecorded}
    ensures (resume || before.log == []) && Distinct(ids) ==> o != Refused(AlreadyRecorded)
  {
    if reached < |ids| && ids[reached] in ids[..reached] {
      var k :| 0 <= k < reached && ids[..reached][k] == ids[reached];
      assert ids[k] == ids[reached];
    }
  }

  lemma NothingNew(before: seq<ObservationId>, log: seq<ObservationId>)
    requires before <= log && Distinct(log) && forall id :: id in log ==> id in before
    ensures log == before
  {
    DistinctIffFullSet(log);
    DistinctIffFullSet(before);
    assert (set id | id in log) == (set id | id in before);
  }

  /** A prefix of the unique identifiers that has all of them is all of them. */
  lemma WholeLog(ids: seq<ObservationId>, log: seq<ObservationId>)
    requires log <= Unique(ids) && Distinct(log) && AsSet(log) == AsSet(ids)
    ensures log == Unique(ids)
  {
    UniqueIsDistinct(ids);
    DistinctIffFullSet(log);
    DistinctIffFullSet(Unique(ids));
    assert (set id | id in Unique(ids)) == AsSet(ids) == (set id | id in log);
  }

  /** A log that has anything has what is scheduled first. */
  lemma FirstIsRecorded(ids: seq<ObservationId>, i: nat, log: seq<ObservationId>)
    requires i < |ids| && log <= Unique(ids)
    ensures i == 0 && log != [] ==> ids[i] in log
  {
    if log != [] {
      UniqueGrows(ids, 1);
      assert ids[..1] == [ids[0]];
      assert Unique(ids)[0] == ids[0];
    }
  }

  function RowId(): Row -> ObservationId { (r: Row) => r.id }

  function RowIds(rows: seq<Row>): seq<ObservationId> { Map(RowId(), rows) }

  ghost function AsSet(ids: seq<ObservationId>): set<ObservationId> { set id | id in ids }

  /** The identifiers of one kind, in order. */
  function Select(ids: seq<ObservationId>, kind: Kind): seq<ObservationId> {
    if ids == [] then []
    else Select(ids[..|ids|-1], kind) + if KindOf(ids[|ids|-1]) == kind then [ids[|ids|-1]] else []
  }

  lemma SelectAppend(ids: seq<ObservationId>, id: ObservationId)
    ensures forall kind :: Select(ids + [id], kind) == Select(ids, kind) + if KindOf(id) == kind then [id] else []
  {
    assert (ids + [id])[..|ids|] == ids;
  }

  function AllKinds(ids: seq<ObservationId>): seq<ObservationId> {
    Select(ids, FeasibleKind) + Select(ids, InfeasibleKind) + Select(ids, AdversarialKind)
    + Select(ids, ConcurrencyKind) + Select(ids, ComponentKind)
  }

  lemma {:induction false} SelectMultiplicity(ids: seq<ObservationId>, kind: Kind, id: ObservationId)
    ensures multiset(Select(ids, kind))[id] == if KindOf(id) == kind then multiset(ids)[id] else 0
  {
    if ids != [] {
      var front, last := ids[..|ids|-1], ids[|ids|-1];
      SelectMultiplicity(front, kind, id);
      OneMoreCounted(front, last, id);
      if KindOf(last) == kind { OneMoreCounted(Select(front, kind), last, id); }
      assert ids == front + [last];
    }
  }

  lemma OneMoreCounted(ids: seq<ObservationId>, last: ObservationId, id: ObservationId)
    ensures multiset(ids + [last])[id] == multiset(ids)[id] + if last == id then 1 else 0
  {
  }

  /** Splitting the identifiers by kind loses and adds none. */
  lemma AllKindsPermutes(ids: seq<ObservationId>)
    ensures multiset(AllKinds(ids)) == multiset(ids)
  {
    forall id ensures multiset(AllKinds(ids))[id] == multiset(ids)[id] {
      SelectMultiplicity(ids, FeasibleKind, id);
      SelectMultiplicity(ids, InfeasibleKind, id);
      SelectMultiplicity(ids, AdversarialKind, id);
      SelectMultiplicity(ids, ConcurrencyKind, id);
      SelectMultiplicity(ids, ComponentKind, id);
    }
  }

  lemma AllKindsDistinct(ids: seq<ObservationId>)
    requires Distinct(ids)
    ensures Distinct(AllKinds(ids)) && AsSet(AllKinds(ids)) == AsSet(ids)
  {
    AllKindsPermutes(ids);
    DistinctIffMultiplicity(ids);
    DistinctIffMultiplicity(AllKinds(ids));
    MembersOfPermutation(AllKinds(ids), ids);
  }

  // Walking along the schedule.

  lemma {:induction false} UniqueGrows(ids: seq<ObservationId>, i: nat)
    requires i <= |ids|
    ensures Unique(ids[..i]) <= Unique(ids)
    decreases |ids| - i
  {
    if i < |ids| {
      UniqueGrows(ids, i + 1);
      assert ids[..i+1][..i] == ids[..i];
    } else {
      assert ids[..i] == ids;
    }
  }

  lemma NextOfPrefix(all: seq<ObservationId>, m: nat, n: nat)
    requires Distinct(all) && m <= n <= |all| && m < |all|
    ensures all[m] in all[..n] <==> m < n
    ensures m == n ==> all[..n] + [all[m]] == all[..n+1]
  {
    if m < n { assert all[..n][m] == all[m]; }
  }

  /** When the log holds everything scheduled before position `i`, the identifier there is
      in the log or is the one the log needs next. */
  lemma NextScheduled(ids: seq<ObservationId>, i: nat, log: seq<ObservationId>)
    requires i < |ids| && log <= Unique(ids) && |Unique(ids[..i])| <= |log|
    ensures ids[i] in log ==> |Unique(ids[..i+1])| <= |log|
    ensures ids[i] !in log ==> log + [ids[i]] <= Unique(ids) && |Unique(ids[..i+1])| == |log| + 1
  {
    var before, all := Unique(ids[..i]), Unique(ids);
    UniqueGrows(ids, i);
    UniqueGrows(ids, i + 1);
    UniqueIsDistinct(ids);
    UniqueNext(ids, i);
    ShorterPrefix(before, log, all);
    if ids[i] in before {
      var k :| 0 <= k < |before| && before[k] == ids[i];
      assert log[k] == ids[i];
    } else {
      assert all[|before|] == (before + [ids[i]])[|before|];
      NextOfPrefix(all, |before|, |log|);
    }
  }

  lemma ShorterPrefix(a: seq<ObservationId>, b: seq<ObservationId>, all: seq<ObservationId>)
    requires a <= all && b <= all && |a| <= |b|
    ensures a <= b && b == all[..|b|]
  {
    assert a == all[..|a|] && b == all[..|b|];
  }

  lemma UniqueNext(ids: seq<ObservationId>, i: nat)
    requires i < |ids|
    ensures Unique(ids[..i+1]) == if ids[i] in Unique(ids[..i]) then Unique(ids[..i]) else Unique(ids[..i]) + [ids[i]]
  {
    assert ids[..i+1][..i] == ids[..i];
  }

  // Checking a finished run.

  function ExpectedCount(kind: Kind): nat {
    match kind
    case FeasibleKind => 480
    case InfeasibleKind => 150
    case AdversarialKind => 200
    case ConcurrencyKind => 100
    case ComponentKind => 110
  }

  /** The scenario, block and method of every feasible session. */
  function Cells(ids: seq<ObservationId>): seq<(string, nat, string)> {
    if ids == [] then []
    else
      var last := ids[|ids|-1];
      Cells(ids[..|ids|-1]) + if last.Feasible? then [(last.scenario, last.block, last.method_)] else []
  }

  predicate CategoryAgrees(a: Row, b: Row) {
    a.id.Infeasible? && b.id.Infeasible? && a.id.scenario == b.id.scenario ==> a.category == b.category
  }

  /** Every infeasible scenario ended in one category. */
  predicate CategoriesAgree(rows: seq<Row>) {
    forall i, j :: 0 <= i < j < |rows| ==> CategoryAgrees(rows[i], rows[j])
  }

  /** What the validator demands of the rows and of the number of lines of each file. */
  ghost predicate Passes(scheduled: seq<ObservationId>, rows: seq<Row>, lines: Kind -> nat) {
    && Distinct(RowIds(rows)) && AsSet(RowIds(rows)) == AsSet(scheduled)
    && (forall k :: 0 <= k < |rows| ==> rows[k].schemaValid && rows[k].accepted)
    && (forall kind :: lines(kind) == ExpectedCount(kind))
    && CategoriesAgree(rows)
    && multiset(Cells(scheduled)) == multiset(Cells(RowIds(rows)))
  }

  method ScanRows(rows: seq<Row>) returns (ids: set<ObservationId>, errors: seq<ValidationError>)
    ensures ids == AsSet(RowIds(rows))
    ensures errors == [] <==>
      Distinct(RowIds(rows)) && forall k :: 0 <= k < |rows| ==> rows[k].schemaValid && rows[k].accepted
    ensures forall e :: e in errors ==> e.DuplicateObservation? || e.SchemaFailed? || e.RowRejected?
    ensures DuplicateObservation in errors <==> !Distinct(RowIds(rows))
  {
    ids, errors := {}, [];
    for k := 0 to |rows|
      invariant ids == AsSet(RowIds(rows[..k]))
      invariant forall e :: e in errors ==> e.DuplicateObservation? || e.SchemaFailed? || e.RowRejected?
      invariant DuplicateObservation in errors <==> !Distinct(RowIds(rows[..k]))
      invariant errors == [] <==>
        Distinct(RowIds(rows[..k])) && forall j :: 0 <= j < k ==> rows[j].schemaValid && rows[j].accepted
    {
      RowIdsNext(rows, k);
      if rows[k].id in ids { errors := errors + [DuplicateObservation]; }
      if !rows[k].schemaValid { errors := errors + [SchemaFailed]; }
      if !rows[k].accepted { errors := errors + [RowRejected]; }
      ids := ids + {rows[k].id};
    }
    assert rows[..|rows|] == rows;
  }

  lemma RowIdsNext(rows: seq<Row>, k: nat)
    requires k < |rows|
    ensures RowIds(rows[..k+1]) == RowIds(rows[..k]) + [rows[k].id]
    ensures AsSet(RowIds(rows[..k+1])) == AsSet(RowIds(rows[..k])) + {rows[k].id}
    ensures Distinct(RowIds(rows[..k+1])) <==> Distinct(RowIds(rows[..k])) && rows[k].id !in RowIds(rows[..k])
  {
    assert rows[..k+1] == rows[..k] + [rows[k]];
  }

  const KINDS := [FeasibleKind, InfeasibleKind, AdversarialKind, ConcurrencyKind, ComponentKind]

  lemma EveryKind()
    ensures forall kind: Kind :: kind in KINDS
  {
    forall kind: Kind ensures kind in KINDS {
      match kind
      case FeasibleKind => assert KINDS[0] == kind;
      case InfeasibleKind => assert KINDS[1] == kind;
      case AdversarialKind => assert KINDS[2] == kind;
      case ConcurrencyKind => assert KINDS[3] == kind;
      case ComponentKind => assert KINDS[4] == kind;
    }
  }

  method CountErrors(lines: Kind -> nat) returns (errors: seq<ValidationError>)
    ensures forall e :: e in errors <==> e.CountMismatch? && lines(e.kind) != ExpectedCount(e.kind)
    ensures errors == [] <==> forall kind :: lines(kind) == ExpectedCount(kind)
  {
    errors := [];
    for k := 0 to |KINDS|
      invariant forall e :: e in errors <==> e.CountMismatch? && e.kind in KINDS[..k] && lines(e.kind) != ExpectedCount(e.kind)
      invariant errors == [] <==> forall kind :: kind in KINDS[..k] ==> lines(kind) == ExpectedCount(kind)
    {
      if lines(KINDS[k]) != ExpectedCount(KINDS[k]) { errors := errors + [CountMismatch(KINDS[k])]; }
      assert KINDS[..k+1] == KINDS[..k] + [KINDS[k]];
    }
    assert KINDS[..|KINDS|] == KINDS;
    EveryKind();
  }

  /** The errors that the rows themselves and their identifiers give. */
  method RowErrors(scheduled: seq<ObservationId>, rows: seq<Row>) returns (errors: seq<ValidationError>)
    ensures errors == [] <==>
      && Distinct(RowIds(rows)) && AsSet(RowIds(rows)) == AsSet(scheduled)
      && forall k :: 0 <= k < |rows| ==> rows[k].schemaValid && rows[k].accepted
    ensures MissingObservations in errors <==> !(AsSet(scheduled) <= AsSet(RowIds(rows)))
    ensures UnscheduledObservations in errors <==> !(AsSet(RowIds(rows)) <= AsSet(scheduled))
    ensures DuplicateObservation in errors <==> !Distinct(RowIds(rows))
    ensures forall e :: e in errors ==> !e.CountMismatch?
  {
    var ids, scanned := ScanRows(rows);
    var expected := set id | id in scheduled;
    var missing := if expected <= ids then [] else [MissingObservations];
    var extra := if ids <= expected then [] else [UnscheduledObservations];
    errors := scanned + missing + extra;
  }

  method Validate(scheduled: seq<ObservationId>, rows: seq<Row>, lines: Kind -> nat)
      returns (errors: seq<ValidationError>)
    ensures errors == [] <==> Passes(scheduled, rows, lines)
  {
    var rowErrors := RowErrors(scheduled, rows);
    var countErrors := CountErrors(lines);
    var agree := CategoriesAgree(rows);
    var balanced := multiset(Cells(scheduled)) == multiset(Cells(RowIds(rows)));
    var others := (if agree then [] else [CategoryNotDetermined]) + (if balanced then [] else [BlockBalanceMismatch]);
    errors := rowErrors + countErrors + others;
  }

  function NoRows(): (files: map<Kind, seq<Row>>)
    ensures forall kind: Kind :: kind in files && files[kind] == []
  {
    EveryKind();
    map kind | kind in KINDS :: []
  }

  // The run directory.

  /** The directories, manifest, design copy, schedule copy and index. */
  const CREATION_STEPS := 5

  class RunDir {
    var present: bool
    var manifest: Option<seq<Scheduled>>
    var designCopied: bool
    var scheduleCopy: Option<seq<Scheduled>>
    var raw: map<Kind, seq<Row>>
    var index: Option<set<ObservationId>>
    var seal: Seal
    var complete: bool
    /** Everything ever appended, in order. */
    ghost var log: seq<ObservationId>
    /** How much of the log the index covers. */
    ghost var indexed: nat

    constructor ()
      ensures Valid() && !present && log == [] && seal == UNSEALED
    {
      present, manifest, designCopied, scheduleCopy := false, None, false, None;
      raw := NoRows();
      index, seal, complete, log, indexed := None, UNSEALED, false, [], 0;
    }

    /** The files are the log split by kind, nothing is recorded twice, and the index
        covers an initial part of the log. */
    ghost predicate Consistent()
      reads this
    {
      && FilesAreLog(raw, log)
      && Distinct(log)
      && RowsAreValid(raw)
      && indexed <= |log|
      && (index.Some? ==> index.value == AsSet(log[..indexed]))
    }

    ghost predicate Valid()
      reads this
    {
      && Consistent()
      && (!present ==> manifest.None? && index.None? && !complete)
      && (manifest.None? ==> !designCopied && log == [])
      && (!designCopied ==> scheduleCopy.None?)
      && (scheduleCopy.Some? ==> scheduleCopy == manifest)
      && (manifest.Some? ==> log <= Unique(Ids(manifest.value)))
      && (complete ==> scheduleCopy.Some? && Passes(Ids(scheduleCopy.value), AllRows(), Lines()))
      && Sound(seal, Files(), manifest.Some? && log == Unique(Ids(manifest.value)), complete)
    }

    function Files(): RawFiles
      reads this
    {
      RawFiles(raw, index)
    }

    function Lines(): Kind -> nat
      reads this
      requires forall kind: Kind :: kind in raw
    {
      var files := raw;
      kind => if kind in files then |files[kind]| else 0
    }

    function AllRows(): seq<Row>
      reads this
      requires forall kind: Kind :: kind in raw
    {
      raw[FeasibleKind] + raw[InfeasibleKind] + raw[AdversarialKind] + raw[ConcurrencyKind] + raw[ComponentKind]
    }

    lemma AllRowsAreTheLog()
      requires Consistent()
      ensures RowIds(AllRows()) == AllKinds(log) && Distinct(RowIds(AllRows())) && AsSet(RowIds(AllRows())) == AsSet(log)
      ensures forall k :: 0 <= k < |AllRows()| ==> AllRows()[k].schemaValid
    {
      AllKindsDistinct(log);
    }

    /** Reads every raw file; a repeated identifier stops it. */
    method CompletedObservationIds() returns (r: Result<set<ObservationId>, CampaignError>)
      requires Consistent()
      ensures r == Ok(AsSet(log))
    {
      AllRowsAreTheLog();
      var rows := AllRows();
      var ids := {};
      for k := 0 to |rows|
        invariant ids == AsSet(RowIds(rows[..k]))
      {
        RowIdsNext(rows, k);
        if rows[k].id in ids {
          return Err(DuplicateInLog);
        }
        ids := ids + {rows[k].id};
      }
      assert rows[..|rows|] == rows;
      return Ok(ids);
    }

    /** Appends one line to the file of its kind. */
    method WriteRow(kind: Kind, row: Row)
      requires Consistent() && kind == KindOf(row.id) && row.schemaValid && row.id !in log
      modifies `raw, `log
      ensures Consistent() && log == old(log) + [row.id] && raw == old(raw)[kind := old(raw)[kind] + [row]]
    {
      assert kind in raw;
      FilesAfterRow(raw, log, row);
      RowsStayValid(raw, row);
      StaysDistinct(log, row.id);
      assert (log + [row.id])[..indexed] == log[..indexed];
      raw := raw[kind := raw[kind] + [row]];
      log := log + [row.id];
    }

    method WriteCompletedIndex()
      requires Consistent()
      modifies `index, `indexed
      ensures Consistent() && index == Some(AsSet(log)) && indexed == |log|
    {
      var ids := CompletedObservationIds();
      index, indexed := Some(ids.value), |log|;
      assert log[..indexed] == log;
    }

    /** Appends a row to the file of its kind, then rewrites the index. */
    method AppendObservation(kind: Kind, row: Row, fate: Fate) returns (o: Outcome)
      requires Consistent() && kind == KindOf(row.id)
      modifies `raw, `log, `index, `indexed
      ensures Consistent()
      ensures o == AppendOutcome(row.schemaValid, row.id in old(log), fate)
      ensures log == if o in {Done, Crashed(true)} then old(log) + [row.id] else old(log)
      ensures raw == if o in {Done, Crashed(true)} then old(raw)[kind := old(raw)[kind] + [row]] else old(raw)
      ensures index == if o == Done then Some(AsSet(log)) else old(index)
    {
      if !row.schemaValid {
        return Refused(InvalidRow);
      }
      var done := CompletedObservationIds();
      if row.id in done.value {
        return Refused(AlreadyRecorded);
      }
      if fate == CrashBefore { return Crashed(false); }
      WriteRow(kind, row);
      if fate == CrashAfterRow { return Crashed(true); }
      WriteCompletedIndex();
      return Done;
    }

    /** How a directory that exists answers. */
    function Reopened(registered: seq<Scheduled>): Outcome
      reads this
    {
      if complete then Refused(AlreadyComplete)
      else if manifest.None? then Refused(MissingFile)
      else if manifest.value != registered then Refused(DifferentRegistration)
      else Done
    }

    /** How the preparation of a run answers. `ready` stands for the checks on the
        environment; a creation that crashes gets only its first `created` steps done. */
    function Opening(registered: seq<Scheduled>, ready: bool, created: nat): Outcome
      reads this
    {
      if !ready then Refused(NotReady)
      else if present then Reopened(registered)
      else if created < CREATION_STEPS then Crashed(false)
      else Done
    }

    /** Creates the directory of a run file by file, or checks that it was created under
        the same registration. */
    method PrepareRunDir(registered: seq<Scheduled>, ready: bool, created: nat) returns (o: Outcome)
      requires Valid()
      modifies this
      ensures Valid() && log == old(log) && raw == old(raw) && seal == old(seal) && complete == old(complete)
      ensures o == old(Opening(registered, ready, created))
      ensures old(present) || !ready ==> unchanged(this)
      ensures old(present) ==> present && manifest == old(manifest) && scheduleCopy == old(scheduleCopy)
      ensures !old(present) && ready ==> CreatedUpTo(registered, created)
      ensures !old(present) && ready ==> index == if created < CREATION_STEPS then None else Some({})
      ensures o == Done ==> manifest == Some(registered) && !complete && Written() == Prepared(old(present), old(Written()))
    {
      if !ready {
        return Refused(NotReady);
      }
      if present && complete {
        return Refused(AlreadyComplete);
      }
      if !present {
        o := CreateRunDir(registered, created);
        return;
      }
      if manifest.None? {
        return Refused(MissingFile);
      }
      if manifest.value != registered {
        return Refused(DifferentRegistration);
      }
      return Done;
    }

    /** The files that a creation leaves when it stops after `created` steps. */
    ghost predicate CreatedUpTo(registered: seq<Scheduled>, created: nat)
      reads `present, `manifest, `designCopied, `scheduleCopy
    {
      && (present <==> created >= 1)
      && manifest == (if created >= 2 then Some(registered) else None)
      && (designCopied <==> created >= 3)
      && scheduleCopy == (if created >= 4 then Some(registered) else None)
    }

    method CreateRunDir(registered: seq<Scheduled>, created: nat) returns (o: Outcome)
      requires Valid() && !present
      modifies this
      ensures Valid() && log == old(log) && raw == old(raw) && seal == old(seal) && complete == old(complete)
      ensures o == if created < CREATION_STEPS then Crashed(false) else Done
      ensures CreatedUpTo(registered, created) && index == if created < CREATION_STEPS then None else Some({})
    {
      if created < 1 { return Crashed(false); }
      present := true;
      if created < 2 { return Crashed(false); }
      manifest := Some(registered);
      if created < 3 { return Crashed(false); }
      designCopied := true;
      if created < 4 { return Crashed(false); }
      scheduleCopy := Some(registered);
      if created < 5 { return Crashed(false); }
      WriteCompletedIndex();
      assert AsSet([]) == {};
      return Done;
    }

    /** The checksum files that are there match. */
    method ChecksumErrors() returns (errors: seq<ValidationError>)
      ensures errors == [] <==> (seal.rawSums.None? || seal.rawSums == Some(Files())) && !Spoiled(seal)
    {
      var rawErrors := if seal.rawSums.Some? && seal.rawSums.value != Files() then [RawChecksumMismatch] else [];
      var integrityErrors := if Spoiled(seal) then [IntegrityChecksumMismatch] else [];
      errors := rawErrors + integrityErrors;
    }

    /** The validator, on the files of the directory. `ready` stands for the checks on the environment. */
    method ValidateRun(ready: bool) returns (r: Result<seq<ValidationError>, CampaignError>)
      requires Valid() && manifest.Some?
      ensures r == Err(MissingFile) <==> !designCopied || (ready && scheduleCopy.None?)
      ensures r == Err(NotReady) <==> designCopied && !ready
      ensures r.Err? ==> r.error in {MissingFile, NotReady}
      ensures r.Ok? ==> scheduleCopy.Some?
      ensures r.Ok? ==> (r.value == [] <==> Passes(Ids(manifest.value), AllRows(), Lines()) && !Spoiled(seal))
    {
      if !designCopied {
        return Err(MissingFile);
      }
      if !ready {
        return Err(NotReady);
      }
      if scheduleCopy.None? {
        return Err(MissingFile);
      }
      var errors := Validate(Ids(scheduleCopy.value), AllRows(), Lines());
      var checksumErrors := ChecksumErrors();
      return Ok(errors + checksumErrors);
    }

    /** The validator accepts the run, when its checksum files were `before`. */
    ghost predicate Accepts(before: Seal)
      reads this
      requires manifest.Some? && forall kind: Kind :: kind in raw
    {
      scheduleCopy.Some? && Passes(Ids(manifest.value), AllRows(), Lines()) && !Spoiled(before)
    }

    /** How finalizing answers and what it leaves: it refuses without its files or the environment,
        and otherwise exactly when the validator does not accept the run. */
    ghost predicate Finished(ready: bool, done: nat, before: Seal, o: Outcome)
      reads this
      requires manifest.Some? && forall kind: Kind :: kind in raw
    {
      && (o == Refused(MissingFile) <==> !designCopied || (ready && scheduleCopy.None?))
      && (o == Refused(NotReady) <==> designCopied && !ready)
      && (o.Refused? && o.error.ValidationFailed? <==> ready && scheduleCopy.Some? && !Accepts(before))
      && (ready && Accepts(before) ==> o == if done < FINISH_STEPS then Crashed(false) else Done)
      && seal == if ready && Accepts(before) then Finalizing(before, Files(), done) else before
    }

    /** Seals the run and marks it complete if it validates; `done` steps of that happen. The checks
        between the steps compare checksums with what they were just taken of. */
    method FinalizeRun(ready: bool, done: nat) returns (o: Outcome)
      requires Valid() && manifest.Some? && !complete && log == Unique(Ids(manifest.value))
      modifies `seal, `complete
      ensures Valid() && (complete <==> o == Done) && Finished(ready, done, old(seal), o)
    {
      var validation := ValidateRun(ready);
      if validation.Err? {
        return Refused(validation.error);
      }
      if validation.value != [] {
        return Refused(ValidationFailed(validation.value));
      }
      FinalizingIsSound(seal, Files(), done);
      o := WriteSeal(done);
    }

    /** The steps themselves, one file each. */
    method WriteSeal(done: nat) returns (o: Outcome)
      requires !complete
      modifies `seal, `complete
      ensures seal == Finalizing(old(seal), Files(), done)
      ensures o == (if done < FINISH_STEPS then Crashed(false) else Done) && (complete <==> o == Done)
    {
      var files := Files();
      if done == 0 { return Crashed(false); }
      seal := seal.(rawSums := Some(files));
      if done == 1 { return Crashed(false); }
      seal := seal.(fileManifest := Some(Listing(files, seal.markerLeft)));
      if done == 2 { return Crashed(false); }
      seal := seal.(integritySums := seal.fileManifest);
      if done == 3 { return Crashed(false); }
      seal := seal.(markerLeft := true);
      if done == 4 { return Crashed(false); }
      seal, complete := seal.(markerLeft := false), true;
      return Done;
    }

    /** One round of the campaign loop. */
    method RecordOne(id: ObservationId, done: set<ObservationId>, step: Step) returns (o: Outcome)
      requires Consistent()
      modifies `raw, `log, `index, `indexed
      ensures Consistent() && o == RoundOutcome(id in done, id in old(log), step)
      ensures LogStepped(id, done, old(Written()), Written(), o) && RowsGrowBy(old(raw), raw, id, step)
    {
      if id in done {
        return Done;
      }
      if step.reading == None {
        return Refused(MeasurementFailed);
      }
      o := AppendObservation(KindOf(id), RowOf(id, step.reading.value), step.fate);
    }

    ghost function Written(): Contents
      reads this
    {
      Contents(raw, log, index)
    }

    method RecordNext(ghost ids: seq<ObservationId>, i: nat, scheduled: Scheduled, done: set<ObservationId>,
                      ghost steps: nat -> Step, step: Step, ghost before: Contents)
        returns (o: Outcome)
      requires i < |ids| && scheduled.id == ids[i] && steps(i) == step && done <= AsSet(before.log)
      requires Consistent() && Underway(ids, done, steps, before, Written(), i)
      modifies `raw, `log, `index, `indexed
      ensures Consistent() && log <= Unique(ids)
      ensures o == Done ==> Underway(ids, done, steps, before, Written(), i + 1)
      ensures o != Done ==> LoopRan(ids, done, steps, before, Written(), o, i)
    {
      ghost var now := Written();
      o := RecordOne(scheduled.id, done, step);
      RoundIsStep(ids, i, done, before, now, step, o);
      RowsGrowMore(before.raw, now.raw, raw, ids, steps, i);
      if o == Done {
        AllWellMore(ids, before.log, done, steps, i);
        LogGoesWell(ids, i, done, before, now, Written());
      } else {
        LogStops(ids, i, done, before, now, Written(), o);
      }
    }

    /** The campaign loop: every scheduled observation that is not in `done`. */
    method RecordMissing(registered: seq<Scheduled>, done: set<ObservationId>, steps: nat -> Step)
        returns (o: Outcome, ghost reached: nat)
      requires Consistent() && log <= Unique(Ids(registered)) && done <= AsSet(log)
      modifies `raw, `log, `index, `indexed
      ensures Consistent() && log <= Unique(Ids(registered))
      ensures LoopRan(Ids(registered), done, steps, old(Written()), Written(), o, reached)
    {
      ghost var ids, before := Ids(registered), Written();
      reached := 0;
      for i := 0 to |registered|
        invariant reached == i && Consistent() && Underway(ids, done, steps, before, Written(), i)
      {
        o := RecordNext(ids, i, registered[i], done, steps, steps(i), before);
        if o != Done {
          return;
        }
        reached := i + 1;
      }
      LoopEnds(ids, done, steps, before, Written());
      return Done, reached;
    }

    /** The loop, over everything or over what is missing. */
    method RecordAll(registered: seq<Scheduled>, resume: bool, steps: nat -> Step)
        returns (o: Outcome, ghost reached: nat)
      requires Valid() && manifest == Some(registered) && !complete
      modifies `raw, `log, `index, `indexed
      ensures Valid() && (old(log) == Unique(Ids(registered)) ==> Files() == old(Files()))
      ensures LoopRan(Ids(registered), AlreadyDone(resume, old(log)), steps, old(Written()), Written(), o, reached)
      ensures reached <= |registered| && (o == Done <==> reached == |registered|)
      ensures o == Done ==> log == Unique(Ids(registered))
    {
      var done: set<ObservationId> := {};
      if resume {
        var completed := CompletedObservationIds();
        done := completed.value;
      }
      assert done == AlreadyDone(resume, log);
      o, reached := RecordMissing(registered, done, steps);
      if reached == |registered| { FinishedLoop(Ids(registered), old(Written()), Written()); }
      if old(log) == Unique(Ids(registered)) {
        FrozenLoop(Ids(registered), steps, old(Written()), Written(), o, reached);
      }
    }

    /** A run on a directory that is ready for it, after the warm-up. */
    method RunPrepared(registered: seq<Scheduled>, plan: Plan) returns (o: Outcome, ghost reached: nat)
      requires Valid() && manifest == Some(registered) && !complete
      modifies `raw, `log, `index, `indexed, `seal, `complete
      ensures Valid() && (complete <==> o == Done)
      ensures Looped(registered, plan, old(Written()), old(seal), o, reached)
    {
      o, reached := RecordAll(registered, plan.resume, plan.steps);
      if o != Done {
        return;
      }
      ghost var looped := Written();
      o := FinalizeRun(plan.readyToFinish, plan.finished);
      assert Written() == looped;
    }

    /** What a run that gets to its loop does: the loop, and after its end the validation. */
    ghost predicate Looped(registered: seq<Scheduled>, plan: Plan, before: Contents, sealBefore: Seal, o: Outcome,
                           reached: nat)
      reads this
      requires Valid()
    {
      && manifest == Some(registered)
      && LoopRan(Ids(registered), AlreadyDone(plan.resume, before.log), plan.steps, before, Written(),
                 if reached < |registered| then o else Done, reached)
      && (reached < |registered| ==> seal == sealBefore)
      && (reached == |registered| ==>
            log == Unique(Ids(registered)) && Finished(plan.readyToFinish, plan.finished, sealBefore, o))
      && (before.log == Unique(Ids(registered)) ==> raw == before.raw && index == before.index)
    }

    /** The run gets to its loop. */
    ghost predicate Starts(registered: seq<Scheduled>, plan: Plan)
      reads this
    {
      Opening(registered, plan.ready, plan.created) == Done && plan.warmedUp
    }

    /** What follows for a run that got to its loop, from the files `found` at its start. */
    lemma LoopedFacts(registered: seq<Scheduled>, plan: Plan, found: bool, before: Contents, sealBefore: Seal, o: Outcome,
                      reached: nat)
      requires Valid() && Looped(registered, plan, Prepared(found, before), sealBefore, o, reached)
      requires before.log <= Unique(Ids(registered))
      ensures before.log <= log
      ensures !plan.resume && before.log != [] ==> log == before.log && o.Refused?
      ensures o == Done || (o.Refused? && o.error.ValidationFailed?) ==> log == Unique(Ids(registered))
      ensures o == Done && found ==> (IndexIsCurrent(Written()) <==> before.log != log || IndexIsCurrent(before))
      ensures (plan.resume || before.log == []) && Distinct(Ids(registered)) ==> o != Refused(AlreadyRecorded)
      ensures o.Refused? && plan.readyToFinish && scheduleCopy.Some? ==>
                o.error in {MeasurementFailed, InvalidRow, AlreadyRecorded} || o.error.ValidationFailed?
      ensures Spoiled(sealBefore) ==> seal == sealBefore && o != Done
    {
      var ids, inLoop := Ids(registered), if reached < |registered| then o else Done;
      StoppedLoop(ids, plan.resume, plan.steps, Prepared(found, before), Written(), inLoop, reached);
      if !plan.resume && before.log != [] {
        FreshLoop(ids, plan.steps, Prepared(found, before), Written(), inLoop, reached);
      }
    }

    /** Prepares the directory and goes on if it can. */
    method PrepareAndRun(registered: seq<Scheduled>, plan: Plan) returns (o: Outcome, ghost reached: nat)
      requires Valid()
      modifies this
      ensures Valid() && (o == Done <==> complete && !old(complete))
      ensures old(present) ==> present && manifest == old(manifest) && scheduleCopy == old(scheduleCopy)
      ensures !old(present) && plan.ready ==> CreatedUpTo(registered, plan.created)
      ensures !old(Starts(registered, plan)) ==>
                log == old(log) && raw == old(raw) && seal == old(seal) && complete == old(complete)
      ensures !old(Starts(registered, plan)) ==> o == Stopped(old(Opening(registered, plan.ready, plan.created)))
      ensures old(present) && old(Reopened(registered)) != Done ==> unchanged(this) && o.Refused?
      ensures old(Starts(registered, plan)) ==>
                Looped(registered, plan, Prepared(old(present), old(Written())), old(seal), o, reached)
    {
      ghost var starts, before := Starts(registered, plan), Prepared(present, Written());
      reached := 0;
      o := PrepareRunDir(registered, plan.ready, plan.created);
      if o != Done {
        assert !starts;
        return;
      }
      if !plan.warmedUp { return Crashed(false), 0; }
      assert starts && Written() == before;
      o, reached := RunPrepared(registered, plan);
    }

    /** One run of the campaign, fresh or resumed. */
    method RunCampaign(registered: seq<Scheduled>, plan: Plan) returns (o: Outcome, ghost reached: nat)
      requires Valid()
      modifies this
      ensures Valid() && old(log) <= log && (o == Done <==> complete && !old(complete))
      ensures old(present) ==> present && manifest == old(manifest) && scheduleCopy == old(scheduleCopy)
      ensures !old(present) && plan.ready ==> CreatedUpTo(registered, plan.created)
      ensures !old(Starts(registered, plan)) ==>
                log == old(log) && raw == old(raw) && seal == old(seal) && complete == old(complete)
      ensures !old(Starts(registered, plan)) ==> o == Stopped(old(Opening(registered, plan.ready, plan.created)))
      ensures old(Starts(registered, plan)) ==>
                Looped(registered, plan, Prepared(old(present), old(Written())), old(seal), o, reached)
      ensures old(complete) ==> complete && log == old(log) && o.Refused?
      ensures old(present) && old(manifest) != Some(registered) ==> unchanged(this) && o.Refused?
      ensures !plan.resume && old(log) != [] ==> log == old(log) && complete == old(complete)
      ensures o == Done || (o.Refused? && o.error.ValidationFailed?) ==> log == Unique(Ids(registered))
      ensures o == Done ==> scheduleCopy.Some?
      ensures o == Done && old(present) ==>
                (IndexIsCurrent(Written()) <==> old(log) != Unique(Ids(registered)) || IndexIsCurrent(old(Written())))
      ensures (plan.resume || old(log) == []) && Distinct(Ids(registered)) ==> o != Refused(AlreadyRecorded)
      ensures old(Spoiled(seal)) ==> seal == old(seal) && o != Done
      ensures old(Starts(registered, plan)) && plan.readyToFinish && scheduleCopy.Some? && o.Refused? ==>
                o.error in {MeasurementFailed, InvalidRow, AlreadyRecorded} || o.error.ValidationFailed?
    {
      ghost var starts, found, before, sealBefore := Starts(registered, plan), present, Written(), seal;
      o, reached := PrepareAndRun(registered, plan);
      if starts { LoopedFacts(registered, plan, found, before, sealBefore, o, reached); }
    }
  }
}
