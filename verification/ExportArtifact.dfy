/**
 * Publishing an export: put the file, read it back, commit the job, and delete the file on every other
 * exit. Attempts of different jobs interleave step by step, storage and database calls may fail, and a
 * worker may crash anywhere.
 */
module ExportArtifact {
  import opened Basics

  datatype ExportFormat = Csv | Xlsx

  /** A content type, as far as the check can tell them apart. */
  datatype ContentType = CsvText | Workbook | OtherType(text: string)

  /**
   * generated-files/<event>/exports/<sha256>.<extension>: the key names the event and the content, not the
   * job.
   */
  datatype ObjectKey = ObjectKey(eventId: string, sha256: string, format: ExportFormat)

  datatype Artifact = Artifact(key: ObjectKey, size: nat)

  /** What headObject reports: the stored size, the content type if known, and the sha256 metadata. */
  datatype ObjectInfo = ObjectInfo(size: nat, contentType: Option<ContentType>, sha256: string)

  datatype JobStatus = Queued | Processing | Completed | Failed

  datatype JobRow = JobRow(eventId: string, status: JobStatus, output: Option<ObjectKey>)

  datatype AssetRow = AssetRow(jobId: string, size: nat)

  /** The private bucket, export_jobs, and stored_assets under their unique object key. */
  datatype Backend = Backend(
    objects: map<ObjectKey, ObjectInfo>, jobs: map<string, JobRow>, assets: map<ObjectKey, AssetRow>)

  datatype Exit = Published | AlreadyProcessed | StaleCompletion | Threw

  /** Where an attempt is; `Ended` also tells whether its object was deleted on the way out. */
  datatype Stage = Generated | Uploaded | Verified | Cleaning(exit: Exit) | Ended(exit: Exit, deleted: bool)

  datatype Attempt = Attempt(jobId: string, artifact: Artifact, stage: Stage)

  /** What the outside world does to the next call of an attempt. */
  datatype Choice =
    | PutStores(info: ObjectInfo)
    | PutThrows(stored: Option<ObjectInfo>)
    | HeadAnswers
    | HeadThrows
    | CommitRuns
    | CommitThrows(committed: bool)
    | DeleteRuns
    | DeleteThrows

  function ContentTypeOf(format: ExportFormat): ContentType {
    if format == Csv then CsvText else Workbook
  }

  function FaithfulInfo(artifact: Artifact): ObjectInfo {
    ObjectInfo(artifact.size, Some(ContentTypeOf(artifact.key.format)), artifact.key.sha256)
  }

  /** The integrity check on what was read back. */
  predicate PassesCheck(artifact: Artifact, stored: Option<ObjectInfo>) {
    && stored.Some?
    && stored.value.size == artifact.size
    && (stored.value.contentType.None? || stored.value.contentType.value == ContentTypeOf(artifact.key.format))
    && stored.value.sha256 == artifact.key.sha256
  }

  function Lookup(objects: map<ObjectKey, ObjectInfo>, key: ObjectKey): Option<ObjectInfo> {
    if key in objects then Some(objects[key]) else None
  }

  // ----- The database transactions -----

  datatype CommitResult =
    | Committed(backend: Backend)
    | AlreadyCompleted(retained: Option<ObjectKey>)
    | Rejected
    | UniqueViolation

  /** PrismaExportRepository.complete. */
  function Commit(backend: Backend, jobId: string, artifact: Artifact): CommitResult {
    if jobId !in backend.jobs || backend.jobs[jobId].eventId != artifact.key.eventId then Rejected
    else
      var job := backend.jobs[jobId];
      if job.status == Completed then AlreadyCompleted(job.output)
      else if job.status != Processing then Rejected
      else if artifact.key in backend.assets then UniqueViolation
      else
        Committed(backend.(
          jobs := backend.jobs[jobId := job.(status := Completed, output := Some(artifact.key))],
          assets := backend.assets[artifact.key := AssetRow(jobId, artifact.size)]))
  }

  /** PrismaExportRepository.claim, for a requester who may still export. */
  function ClaimJob(backend: Backend, jobId: string): Option<Backend> {
    if jobId in backend.jobs && backend.jobs[jobId].status == Queued then
      Some(backend.(jobs := backend.jobs[jobId := backend.jobs[jobId].(status := Processing)]))
    else None
  }

  // ----- One call of one attempt -----

  function PutObject(backend: Backend, attempt: Attempt, choice: Choice): (Backend, Attempt) {
    var key := attempt.artifact.key;
    if choice.PutStores? then
      (backend.(objects := backend.objects[key := choice.info]), attempt.(stage := Uploaded))
    else if choice.PutThrows? then
      (if choice.stored.Some? then backend.(objects := backend.objects[key := choice.stored.value]) else backend,
       attempt.(stage := Ended(Threw, false)))
    else (backend, attempt)
  }

  function HeadObject(backend: Backend, attempt: Attempt, choice: Choice): (Backend, Attempt) {
    if choice.HeadAnswers? then
      (backend,
       if PassesCheck(attempt.artifact, Lookup(backend.objects, attempt.artifact.key)) then attempt.(stage := Verified)
       else attempt.(stage := Cleaning(Threw)))
    else if choice.HeadThrows? then (backend, attempt.(stage := Ended(Threw, false)))
    else (backend, attempt)
  }

  function CompleteJob(backend: Backend, attempt: Attempt, choice: Choice): (Backend, Attempt) {
    var result := Commit(backend, attempt.jobId, attempt.artifact);
    if choice.CommitRuns? then
      match result
      case Committed(after) => (after, attempt.(stage := Ended(Published, false)))
      case AlreadyCompleted(retained) =>
        (backend,
         if retained == Some(attempt.artifact.key) then attempt.(stage := Ended(AlreadyProcessed, false))
         else attempt.(stage := Cleaning(AlreadyProcessed)))
      case Rejected => (backend, attempt.(stage := Cleaning(StaleCompletion)))
      case UniqueViolation => (backend, attempt.(stage := Cleaning(Threw)))
    else if choice.CommitThrows? then
      (if choice.committed && result.Committed? then result.backend else backend, attempt.(stage := Cleaning(Threw)))
    else (backend, attempt)
  }

  function DeleteObject(backend: Backend, attempt: Attempt, choice: Choice): (Backend, Attempt)
    requires attempt.stage.Cleaning?
  {
    var exit := attempt.stage.exit;
    if choice.DeleteRuns? then
      (backend.(objects := backend.objects - {attempt.artifact.key}), attempt.(stage := Ended(exit, true)))
    else if choice.DeleteThrows? then (backend, attempt.(stage := Ended(exit, false)))
    else (backend, attempt)
  }

  /** The next call, if `choice` is about that call at all. */
  function Advance(backend: Backend, attempt: Attempt, choice: Choice): (Backend, Attempt) {
    match attempt.stage
    case Generated => PutObject(backend, attempt, choice)
    case Uploaded => HeadObject(backend, attempt, choice)
    case Verified => CompleteJob(backend, attempt, choice)
    case Cleaning(_) => DeleteObject(backend, attempt, choice)
    case Ended(_, _) => (backend, attempt)
  }

  // ----- Schedules -----

  datatype World = World(backend: Backend, attempts: seq<Attempt>)

  /**
   * A worker claims a job and generates its file, or an attempt makes its next call. An attempt that never
   * calls again has crashed.
   */
  datatype Event = Claim(jobId: string, artifact: Artifact) | Call(attempt: nat, choice: Choice)

  function Next(world: World, event: Event): World {
    match event
    case Claim(jobId, artifact) =>
      var claimed := ClaimJob(world.backend, jobId);
      if claimed.None? || world.backend.jobs[jobId].eventId != artifact.key.eventId then world
      else World(claimed.value, world.attempts + [Attempt(jobId, artifact, Generated)])
    case Call(i, choice) =>
      if i < |world.attempts| then
        var (backend, attempt) := Advance(world.backend, world.attempts[i], choice);
        World(backend, world.attempts[i := attempt])
      else world
  }

  function Run(jobs: map<string, JobRow>, events: seq<Event>): World {
    if events == [] then World(Backend(map[], jobs, map[]), [])
    else Next(Run(jobs, events[..|events| - 1]), events[|events| - 1])
  }

  // ----- Each job is attempted once -----

  ghost predicate OneAttemptPerJob(world: World) {
    && (forall i, j :: 0 <= i < j < |world.attempts| ==> world.attempts[i].jobId != world.attempts[j].jobId)
    && (forall i :: 0 <= i < |world.attempts| ==>
          world.attempts[i].jobId in world.backend.jobs && world.backend.jobs[world.attempts[i].jobId].status != Queued)
  }

  lemma JobsStayClaimed(backend: Backend, attempt: Attempt, choice: Choice, jobId: string)
    requires jobId in backend.jobs && backend.jobs[jobId].status != Queued
    ensures var jobs := Advance(backend, attempt, choice).0.jobs;
            jobId in jobs && jobs[jobId].status != Queued
  {
  }

  lemma NextKeepsOneAttemptPerJob(world: World, event: Event)
    requires OneAttemptPerJob(world)
    ensures OneAttemptPerJob(Next(world, event))
  {
    var after := Next(world, event);
    if event.Call? && event.attempt < |world.attempts| {
      var attempt := world.attempts[event.attempt];
      forall i | 0 <= i < |after.attempts|
        ensures after.attempts[i].jobId == world.attempts[i].jobId
        ensures after.attempts[i].jobId in after.backend.jobs
        ensures after.backend.jobs[after.attempts[i].jobId].status != Queued
      {
        JobsStayClaimed(world.backend, attempt, event.choice, world.attempts[i].jobId);
      }
    }
  }

  /** A job is claimed at most once, whatever fails: once its attempt has thrown, nothing retries it. */
  lemma {:induction false} JobsAreClaimedOnce(jobs: map<string, JobRow>, events: seq<Event>)
    ensures OneAttemptPerJob(Run(jobs, events))
    ensures forall i :: 0 <= i < |Run(jobs, events).attempts| ==>
              ClaimJob(Run(jobs, events).backend, Run(jobs, events).attempts[i].jobId).None?
  {
    if events != [] {
      JobsAreClaimedOnce(jobs, events[..|events| - 1]);
      NextKeepsOneAttemptPerJob(Run(jobs, events[..|events| - 1]), events[|events| - 1]);
    }
  }

  // ----- Committed files survive, as long as no two jobs share a key -----

  ghost predicate DistinctKeys(attempts: seq<Attempt>) {
    forall i, j :: 0 <= i < j < |attempts| ==> attempts[i].artifact.key != attempts[j].artifact.key
  }

  /** A commit that reports an error has not happened. */
  ghost predicate HonestCommits(events: seq<Event>) {
    forall e :: e in events && e.Call? && e.choice.CommitThrows? ==> !e.choice.committed
  }

  /** The file of a committed asset is stored, with the recorded size and digest. */
  ghost predicate Intact(backend: Backend, key: ObjectKey) {
    key in backend.assets ==>
      key in backend.objects && backend.objects[key].size == backend.assets[key].size &&
      backend.objects[key].sha256 == key.sha256
  }

  ghost predicate AllIntact(backend: Backend) {
    forall key :: Intact(backend, key)
  }

  /** What an attempt's stage says about its key. */
  ghost predicate StageIsTrue(backend: Backend, attempt: Attempt) {
    var key := attempt.artifact.key;
    match attempt.stage
    case Generated => key !in backend.assets
    case Uploaded => key !in backend.assets
    case Verified => key !in backend.assets && PassesCheck(attempt.artifact, Lookup(backend.objects, key))
    case Cleaning(exit) => exit != Published && key !in backend.assets
    case Ended(exit, deleted) =>
      if exit == Published then
        key in backend.assets && backend.assets[key] == AssetRow(attempt.jobId, attempt.artifact.size)
      else key !in backend.assets && (deleted ==> key !in backend.objects)
  }

  ghost predicate Consistent(world: World) {
    && AllIntact(world.backend)
    && (forall i :: 0 <= i < |world.attempts| ==> StageIsTrue(world.backend, world.attempts[i]))
    && (forall key :: key in world.backend.assets ==>
          exists i :: 0 <= i < |world.attempts| && world.attempts[i].artifact.key == key)
  }

  lemma AdvanceTouchesOnlyItsKey(backend: Backend, attempt: Attempt, choice: Choice, other: ObjectKey)
    requires other != attempt.artifact.key
    ensures var after := Advance(backend, attempt, choice).0;
            && Lookup(after.objects, other) == Lookup(backend.objects, other)
            && (other in after.assets <==> other in backend.assets)
            && (other in after.assets ==> after.assets[other] == backend.assets[other])
  {
  }

  lemma AdvanceKeepsItsStageTrue(backend: Backend, attempt: Attempt, choice: Choice)
    requires StageIsTrue(backend, attempt) && Intact(backend, attempt.artifact.key)
    requires choice.CommitThrows? ==> !choice.committed
    
    ensures var (after, moved) := Advance(backend, attempt, choice);
            && moved.jobId == attempt.jobId && moved.artifact == attempt.artifact
            && StageIsTrue(after, moved) && Intact(after, attempt.artifact.key)
  {
  }

  lemma OtherStagesStayTrue(backend: Backend, attempt: Attempt, choice: Choice, other: Attempt)
    requires StageIsTrue(backend, other) && other.artifact.key != attempt.artifact.key
    ensures StageIsTrue(Advance(backend, attempt, choice).0, other)
  {
    AdvanceTouchesOnlyItsKey(backend, attempt, choice, other.artifact.key);
  }

  lemma CallKeepsConsistent(world: World, i: nat, choice: Choice)
    requires Consistent(world) && DistinctKeys(world.attempts) && i < |world.attempts|
    requires choice.CommitThrows? ==> !choice.committed
    ensures Consistent(Next(world, Call(i, choice)))
  {
    var attempt := world.attempts[i];
    var (backend, moved) := Advance(world.backend, attempt, choice);
    var after := Next(world, Call(i, choice));
    AdvanceKeepsItsStageTrue(world.backend, attempt, choice);
    forall k | 0 <= k < |after.attempts| ensures StageIsTrue(backend, after.attempts[k]) {
      if k != i { OtherStagesStayTrue(world.backend, attempt, choice, world.attempts[k]); }
    }
    forall key ensures Intact(backend, key) {
      assert Intact(world.backend, key);
      if key != attempt.artifact.key { AdvanceTouchesOnlyItsKey(world.backend, attempt, choice, key); }
    }
    forall key | key in backend.assets
      ensures exists k :: 0 <= k < |after.attempts| && after.attempts[k].artifact.key == key
    {
      if key == attempt.artifact.key {
        assert after.attempts[i].artifact.key == key;
      } else {
        AdvanceTouchesOnlyItsKey(world.backend, attempt, choice, key);
        var k :| 0 <= k < |world.attempts| && world.attempts[k].artifact.key == key;
        assert after.attempts[k] == world.attempts[k];
      }
    }
  }

  lemma ClaimKeepsConsistent(world: World, jobId: string, artifact: Artifact)
    requires Consistent(world)
    requires forall k :: 0 <= k < |world.attempts| ==> world.attempts[k].artifact.key != artifact.key
    ensures Consistent(Next(world, Claim(jobId, artifact)))
  {
    var after := Next(world, Claim(jobId, artifact));
    assert after.backend.objects == world.backend.objects && after.backend.assets == world.backend.assets;
    assert artifact.key !in world.backend.assets;
    forall key ensures Intact(after.backend, key) {
      assert Intact(world.backend, key);
    }
    assert forall k :: 0 <= k < |world.attempts| ==> after.attempts[k] == world.attempts[k];
  }

  lemma KeysOfPrefix(world: World, event: Event)
    ensures |world.attempts| <= |Next(world, event).attempts|
    ensures forall k :: 0 <= k < |world.attempts| ==>
              Next(world, event).attempts[k].artifact.key == world.attempts[k].artifact.key
  {
  }

  /**
   * As long as no two jobs publish under one key, and a commit that reports an error has not happened:
   * whatever calls fail and wherever workers crash, every committed asset has its file, with the recorded
   * size and digest; a published attempt has its asset; and an attempt that ended in any other way has no
   * asset and, if its delete went through, no file either.
   */
  lemma {:induction false} CommittedFilesSurvive(jobs: map<string, JobRow>, events: seq<Event>)
    requires DistinctKeys(Run(jobs, events).attempts) && HonestCommits(events)
    ensures Consistent(Run(jobs, events))
  {
    if events != [] {
      var front, event := events[..|events| - 1], events[|events| - 1];
      var world := Run(jobs, front);
      KeysOfPrefix(world, event);
      assert HonestCommits(front);
      assert event in events;
      CommittedFilesSurvive(jobs, front);
      match event
      case Claim(jobId, artifact) =>
        if Next(world, event) != world {
          var after := Next(world, event);
          assert after.attempts[|world.attempts|].artifact == artifact;
          ClaimKeepsConsistent(world, jobId, artifact);
        }
      case Call(i, choice) =>
        if i < |world.attempts| { CallKeepsConsistent(world, i, choice); }
    }
  }

  // ----- When two jobs do share a key -----

  function AdvanceAll(backend: Backend, attempt: Attempt, choices: seq<Choice>): (Backend, Attempt)
    decreases choices
  {
    if choices == [] then (backend, attempt)
    else
      var (backend', attempt') := Advance(backend, attempt, choices[0]);
      AdvanceAll(backend', attempt', choices[1..])
  }

  lemma FourCalls(backend: Backend, attempt: Attempt, put: Choice, head: Choice, commit: Choice, delete: Choice)
    ensures var (b1, a1) := Advance(backend, attempt, put);
            var (b2, a2) := Advance(b1, a1, head);
            var (b3, a3) := Advance(b2, a2, commit);
            AdvanceAll(backend, attempt, [put, head, commit, delete]) == Advance(b3, a3, delete)
  {
    var all := [put, head, commit, delete];
    var (b1, a1) := Advance(backend, attempt, put);
    var (b2, a2) := Advance(b1, a1, head);
    var (b3, a3) := Advance(b2, a2, commit);
    var (b4, a4) := Advance(b3, a3, delete);
    assert all[1..] == [head, commit, delete] && [head, commit, delete][1..] == [commit, delete];
    assert [commit, delete][1..] == [delete] && [delete][1..] == [];
    assert AdvanceAll(b4, a4, []) == (b4, a4);
    assert AdvanceAll(b3, a3, [delete]) == (b4, a4);
    assert AdvanceAll(b2, a2, [commit, delete]) == (b4, a4);
    assert AdvanceAll(b1, a1, [head, commit, delete]) == (b4, a4);
  }

  /** An attempt that nothing disturbs and none of whose calls fail. */
  function Undisturbed(backend: Backend, jobId: string, artifact: Artifact): (Backend, Attempt) {
    AdvanceAll(
      backend, Attempt(jobId, artifact, Generated),
      [PutStores(FaithfulInfo(artifact)), HeadAnswers, CommitRuns, DeleteRuns])
  }

  /** The backend with the job completed and its file stored. */
  function WithPublished(backend: Backend, jobId: string, artifact: Artifact): Backend {
    Backend(
      backend.objects[artifact.key := FaithfulInfo(artifact)],
      backend.jobs[jobId := JobRow(artifact.key.eventId, Completed, Some(artifact.key))],
      backend.assets[artifact.key := AssetRow(jobId, artifact.size)])
  }

  ghost predicate ReadyToPublish(backend: Backend, jobId: string, artifact: Artifact) {
    jobId in backend.jobs && backend.jobs[jobId].status == Processing &&
    backend.jobs[jobId].eventId == artifact.key.eventId
  }

  /**
   * An undisturbed attempt publishes its file if no asset has its key yet. If one has, the attempt throws
   * and deletes the file under that key, which belongs to the asset.
   */
  lemma PublishingExactly(backend: Backend, jobId: string, artifact: Artifact)
    requires ReadyToPublish(backend, jobId, artifact)
    ensures Undisturbed(backend, jobId, artifact) ==
            if artifact.key !in backend.assets then
              (WithPublished(backend, jobId, artifact), Attempt(jobId, artifact, Ended(Published, false)))
            else
              (backend.(objects := backend.objects - {artifact.key}), Attempt(jobId, artifact, Ended(Threw, true)))
  {
    var attempt := Attempt(jobId, artifact, Generated);
    FourCalls(backend, attempt, PutStores(FaithfulInfo(artifact)), HeadAnswers, CommitRuns, DeleteRuns);
    UploadIsVerified(backend, attempt);
    VerifiedIsCommittedOrCleaned(backend, jobId, artifact);
  }

  function Stored(backend: Backend, artifact: Artifact): Backend {
    backend.(objects := backend.objects[artifact.key := FaithfulInfo(artifact)])
  }

  lemma UploadIsVerified(backend: Backend, attempt: Attempt)
    requires attempt.stage == Generated
    ensures Advance(backend, attempt, PutStores(FaithfulInfo(attempt.artifact))) ==
            (Stored(backend, attempt.artifact), attempt.(stage := Uploaded))
    ensures Advance(Stored(backend, attempt.artifact), attempt.(stage := Uploaded), HeadAnswers) ==
            (Stored(backend, attempt.artifact), attempt.(stage := Verified))
  {
  }

  lemma VerifiedIsCommittedOrCleaned(backend: Backend, jobId: string, artifact: Artifact)
    requires ReadyToPublish(backend, jobId, artifact)
    ensures var (after, attempt) := Advance(Stored(backend, artifact), Attempt(jobId, artifact, Verified), CommitRuns);
            Advance(after, attempt, DeleteRuns) ==
            if artifact.key !in backend.assets then
              (WithPublished(backend, jobId, artifact), Attempt(jobId, artifact, Ended(Published, false)))
            else
              (backend.(objects := backend.objects - {artifact.key}), Attempt(jobId, artifact, Ended(Threw, true)))
  {
    var stored := Stored(backend, artifact);
    if artifact.key in backend.assets {
      assert Commit(stored, jobId, artifact) == UniqueViolation;
      assert stored.objects - {artifact.key} == backend.objects - {artifact.key};
    } else {
      assert Commit(stored, jobId, artifact) == Committed(WithPublished(backend, jobId, artifact));
    }
  }

  /** After an undisturbed attempt every committed asset still has its file exactly when the key was new. */
  lemma FilesSurviveExactly(backend: Backend, jobId: string, artifact: Artifact)
    requires AllIntact(backend) && ReadyToPublish(backend, jobId, artifact)
    ensures AllIntact(Undisturbed(backend, jobId, artifact).0) <==> artifact.key !in backend.assets
  {
    PublishingExactly(backend, jobId, artifact);
    var after := Undisturbed(backend, jobId, artifact).0;
    if artifact.key in backend.assets {
      assert !Intact(after, artifact.key);
    } else {
      forall key ensures Intact(after, key) {
        assert Intact(backend, key);
      }
    }
  }

  /**
   * Exporting an unchanged guest list twice: both jobs produce the same content for the same event, so the
   * second throws and stays claimed, and the first is left completed without its file.
   */
  lemma SecondExportLosesTheFirst(backend: Backend, first: string, second: string, artifact: Artifact)
    requires first != second && artifact.key !in backend.assets
    requires ReadyToPublish(backend, first, artifact) && ReadyToPublish(backend, second, artifact)
    ensures var published := Undisturbed(backend, first, artifact).0;
            var (after, attempt) := Undisturbed(published, second, artifact);
            && Intact(published, artifact.key)
            && attempt.stage == Ended(Threw, true)
            && after.jobs == backend.jobs[first := JobRow(artifact.key.eventId, Completed, Some(artifact.key))]
            && after.jobs[second].status == Processing
            && artifact.key in after.assets && artifact.key !in after.objects
  {
    PublishingExactly(backend, first, artifact);
    PublishingExactly(WithPublished(backend, first, artifact), second, artifact);
  }

  // ----- The processor's own code -----

  /** The stored file has the size and digest of the artifact and, if its content type is known, that of the format. */
  predicate IsFaithful(artifact: Artifact, info: ObjectInfo) {
    info.size == artifact.size && info.sha256 == artifact.key.sha256 &&
    (info.contentType == None || info.contentType == Some(if artifact.key.format == Xlsx then Workbook else CsvText))
  }

  /**
   * How an attempt ends: published if the file was stored and read back faithfully, the job of that event was
   * being processed and no asset has its key; not needed if the job was completed before; stale if there is
   * no such job to complete; and with an error otherwise.
   */
  function ExitOf(
    backend: Backend, jobId: string, artifact: Artifact, put: Choice, head: Choice, commit: Choice): Exit
  {
    if !(put.PutStores? && head.HeadAnswers? && IsFaithful(artifact, put.info) && commit.CommitRuns?) then Threw
    else if jobId !in backend.jobs || backend.jobs[jobId].eventId != artifact.key.eventId then StaleCompletion
    else
      match backend.jobs[jobId].status
      case Completed => AlreadyProcessed
      case Processing => if artifact.key in backend.assets then Threw else Published
      case Queued => StaleCompletion
      case Failed => StaleCompletion
  }

  /** A job is claimed exactly if it is queued, and from then on counts as being processed. */
  lemma ClaimsExactly(world: World, jobId: string, artifact: Artifact)
    ensures var jobs, after := world.backend.jobs, Next(world, Claim(jobId, artifact));
            if jobId in jobs && jobs[jobId].status == Queued && jobs[jobId].eventId == artifact.key.eventId
            then
              && after.attempts == world.attempts + [Attempt(jobId, artifact, Generated)]
              && after.backend == world.backend.(
                   jobs := jobs[jobId := JobRow(artifact.key.eventId, Processing, jobs[jobId].output)])
            else after == world
  {
  }

  class ExportBackend {
    var backend: Backend

    constructor (backend: Backend)
      ensures this.backend == backend
    {
      this.backend := backend;
    }

    /** safelyDelete: a delete that fails is swallowed. */
    method SafelyDelete(key: ObjectKey, fails: bool)
      modifies this
      ensures backend == if fails then old(backend) else old(backend).(objects := old(backend).objects - {key})
    {
      if !fails { backend := backend.(objects := backend.objects - {key}); }
    }

    /** The tail of createExportProcessor, from putObject on, with every call going as `choices` says. */
    method Publish(jobId: string, artifact: Artifact, put: Choice, head: Choice, commit: Choice, delete: Choice)
      returns (exit: Exit)
      requires (put.PutStores? || put.PutThrows?) && (head.HeadAnswers? || head.HeadThrows?)
      requires (commit.CommitRuns? || commit.CommitThrows?) && (delete.DeleteRuns? || delete.DeleteThrows?)
      modifies this
      ensures var (after, attempt) :=
                AdvanceAll(old(backend), Attempt(jobId, artifact, Generated), [put, head, commit, delete]);
              && backend == after && attempt.stage.Ended? && exit == attempt.stage.exit
      ensures exit == ExitOf(old(backend), jobId, artifact, put, head, commit)
      ensures exit == Published ==>
                backend == Backend(
                  old(backend).objects[artifact.key := put.info],
                  old(backend).jobs[jobId := JobRow(artifact.key.eventId, Completed, Some(artifact.key))],
                  old(backend).assets[artifact.key := AssetRow(jobId, artifact.size)])
      ensures put.PutThrows? ==>
                backend.objects == (if put.stored == None then old(backend).objects
                                    else old(backend).objects[artifact.key := put.stored.value])
      ensures put.PutStores? && head.HeadThrows? ==> backend.objects == old(backend).objects[artifact.key := put.info]
      ensures exit == AlreadyProcessed && old(backend).jobs[jobId].output == Some(artifact.key) ==>
                backend.objects == old(backend).objects[artifact.key := put.info]
      ensures exit != Published && !(commit.CommitThrows? && commit.committed) ==>
                backend.jobs == old(backend).jobs && backend.assets == old(backend).assets
      ensures exit != Published && delete.DeleteRuns? && put.PutStores? && head.HeadAnswers? ==>
                artifact.key !in backend.objects ||
                (exit == AlreadyProcessed && old(backend).jobs[jobId].output == Some(artifact.key))
    {
      var key := artifact.key;
      FourCalls(backend, Attempt(jobId, artifact, Generated), put, head, commit, delete);
      if put.PutThrows? {
        if put.stored.Some? { backend := backend.(objects := backend.objects[key := put.stored.value]); }
        return Threw;
      }
      backend := backend.(objects := backend.objects[key := put.info]);
      if head.HeadThrows? { return Threw; }
      if !PassesCheck(artifact, Lookup(backend.objects, key)) {
        SafelyDelete(key, delete.DeleteThrows?);
        return Threw;
      }
      var result := Commit(backend, jobId, artifact);
      if commit.CommitThrows? || result.UniqueViolation? {
        if commit.CommitThrows? && commit.committed && result.Committed? { backend := result.backend; }
        SafelyDelete(key, delete.DeleteThrows?);
        return Threw;
      }
      if result.Committed? {
        backend := result.backend;
        return Published;
      }
      if !(result.AlreadyCompleted? && result.retained == Some(key)) {
        SafelyDelete(key, delete.DeleteThrows?);
      }
      exit := if result.AlreadyCompleted? then AlreadyProcessed else StaleCompletion;
    }
  }
}
