/** The gates that accept CI evidence for one commit
    (`scripts/verify-release-required-ci.py`,
    `scripts/verify-mutation-prerequisite.py`): read the runs, read the jobs, read
    the runs again, against a server that changes meanwhile. */
module CiGate {
  import opened Base
  import opened Pagination

  datatype Run = Run(
    id: Option<int>, attempt: Option<int>, sha: Option<string>, event: Option<string>, path: Option<string>,
    branch: Option<string>, status: Option<string>, conclusion: Option<string>)

  datatype Job = Job(
    id: Option<int>, attempt: Option<int>, sha: Option<string>, name: Option<string>,
    status: Option<string>, conclusion: Option<string>)

  const RUN_ID: Run -> Option<int> := (run: Run) => run.id
  const JOB_ID: Job -> Option<int> := (job: Job) => job.id

  datatype Verdict = Pass | Fail | Pending

  const WORKFLOW := ".github/workflows/ci.yml"
  const REQUIRED := "Required CI"
  const COMPLETED := "completed"
  const SUCCESS := "success"

  predicate IsPending(status: Option<string>) {
    status.Some? && status.value in ["queued", "in_progress", "waiting", "requested", "pending"]
  }

  /** `path.split('@')[0]` */
  function BeforeAt(path: string): (file: string)
    ensures file <= path && '@' !in file
    ensures |file| < |path| ==> path[|file|] == '@'
  {
    if path == "" || path[0] == '@' then "" else [path[0]] + BeforeAt(path[1..])
  }

  predicate IsMatch(run: Run, sha: string) {
    && run.sha == Some(sha)
    && run.event == Some("push")
    && run.path.Some? && BeforeAt(run.path.value) == WORKFLOW
  }

  // ----- Selecting the run ----------------------------------------------------

  /** The matching run with the greatest id. */
  function Newest(runs: seq<Run>, sha: string): (best: Option<Run>)
    requires forall i :: 0 <= i < |runs| ==> runs[i].id.Some?
    ensures best.None? <==> forall i :: 0 <= i < |runs| ==> !IsMatch(runs[i], sha)
    ensures best.Some? ==> best.value in runs && IsMatch(best.value, sha)
    ensures best.Some? ==>
      best.value.id.Some? &&
      forall i :: 0 <= i < |runs| && IsMatch(runs[i], sha) ==> runs[i].id.value <= best.value.id.value
  {
    if runs == [] then None
    else
      var rest := Newest(runs[1..], sha);
      if IsMatch(runs[0], sha) && (rest.None? || runs[0].id.value >= rest.value.id.value) then Some(runs[0])
      else rest
  }

  function SelectRun(data: seq<Page<Run>>, sha: string): Result<Option<Run>, Malformed> {
    var runs :- Pages(data, RUN_ID);
    assert forall i :: 0 <= i < |runs| ==> RUN_ID(runs[i]) == runs[i].id;
    Ok(Newest(runs, sha))
  }

  // ----- Classifying the jobs -------------------------------------------------

  predicate JobsFit(jobs: seq<Job>, sha: string, attempt: int) {
    forall i :: 0 <= i < |jobs| ==>
      jobs[i].sha == Some(sha) && jobs[i].attempt.Some? && 1 <= jobs[i].attempt.value <= attempt
  }

  predicate IsRequired(job: Job) {
    job.name == Some(REQUIRED)
  }

  predicate RequiredAttemptsDiffer(jobs: seq<Job>) {
    forall i, j :: 0 <= i < j < |jobs| && IsRequired(jobs[i]) && IsRequired(jobs[j]) ==>
      jobs[i].attempt != jobs[j].attempt
  }

  /** The Required CI job of one attempt. */
  function Current(jobs: seq<Job>, attempt: int): (found: Option<Job>)
    ensures found.None? <==> forall i :: 0 <= i < |jobs| ==> !(IsRequired(jobs[i]) && jobs[i].attempt == Some(attempt))
    ensures found.Some? ==> found.value in jobs && IsRequired(found.value) && found.value.attempt == Some(attempt)
  {
    if jobs == [] then None
    else if IsRequired(jobs[0]) && jobs[0].attempt == Some(attempt) then Some(jobs[0])
    else Current(jobs[1..], attempt)
  }

  function Classify(run: Run, data: seq<Page<Job>>, sha: string): Result<Verdict, Malformed> {
    if run.attempt.None? || run.attempt.value < 1 || !(IsPending(run.status) || run.status == Some(COMPLETED)) then
      Err(Malformed)
    else
      var jobs :- Pages(data, JOB_ID);
      if !JobsFit(jobs, sha, run.attempt.value) || !RequiredAttemptsDiffer(jobs) then Err(Malformed)
      else
        match Current(jobs, run.attempt.value)
        case None => Ok(if run.status == Some(COMPLETED) then Fail else Pending)
        case Some(job) =>
          if job.status == Some(COMPLETED) then
            Ok(if job.conclusion == Some(SUCCESS) then Pass else Fail)
          else if IsPending(job.status) && job.conclusion.None? && run.status != Some(COMPLETED) then Ok(Pending)
          else Ok(Fail)
  }

  // ----- Polling --------------------------------------------------------------

  /** The replies to the requests of one poll, in the order they are made. */
  datatype Replies = Replies(runs: seq<Page<Run>>, jobs: seq<Page<Job>>, again: seq<Page<Run>>)

  function Poll(replies: Replies, sha: string): Result<Verdict, Malformed> {
    var run :- SelectRun(replies.runs, sha);
    if run.None? then Ok(Pending)
    else
      var verdict :- Classify(run.value, replies.jobs, sha);
      var latest :- SelectRun(replies.again, sha);
      if latest.None? then Ok(Pending)
      else if latest.value.attempt.None? then Err(Malformed)
      else if latest.value.id != run.value.id || latest.value.attempt != run.value.attempt then Ok(Pending)
      else Ok(verdict)
  }

  // ----- A server that changes ------------------------------------------------

  /** The head of the main branch, the runs, the jobs of each run, and which runs the
      listing for a commit shows. */
  datatype Server =
    Server(main: string, runs: map<int, Run>, jobs: map<int, map<int, Job>>, shown: map<string, set<int>>)

  type History = nat -> Server

  /** Ids of the runs the listing for `sha` shows, whatever they are. */
  function ListedRuns(server: Server, sha: string): set<int> {
    if sha in server.shown then server.shown[sha] else {}
  }

  /** A run of the CI workflow that a push of the commit has started. */
  ghost predicate IsPushRun(run: Run, sha: string) {
    && run.sha == Some(sha) && run.event == Some("push") && run.path.Some?
    && exists rest :: run.path.value == ".github/workflows/ci.yml" + rest && (rest == "" || rest[0] == '@')
  }

  ghost function PushRuns(server: Server, sha: string): set<int> {
    set id | id in server.runs && IsPushRun(server.runs[id], sha)
  }

  /** The checks of the client single out the push runs. */
  lemma MatchIff(run: Run, sha: string)
    ensures IsMatch(run, sha) <==> IsPushRun(run, sha)
  {
    assert '@' !in ".github/workflows/ci.yml";
    if run.path.Some? {
      var path := run.path.value;
      var file := BeforeAt(path);
      assert path == file + path[|file|..];
      if rest :| path == ".github/workflows/ci.yml" + rest && (rest == "" || rest[0] == '@') {
        CutsAgree(file, path[|file|..], ".github/workflows/ci.yml", rest);
      }
    }
  }

  /** A text is cut at its first `@` in one way. */
  lemma CutsAgree(a: string, restOfA: string, b: string, restOfB: string)
    requires a + restOfA == b + restOfB && '@' !in a && '@' !in b
    requires (restOfA == "" || restOfA[0] == '@') && (restOfB == "" || restOfB[0] == '@')
    ensures a == b
  {
    var path := a + restOfA;
    assert forall i :: 0 <= i < |a| ==> path[i] == a[i] && a[i] != '@';
    assert forall i :: 0 <= i < |b| ==> path[i] == b[i] && b[i] != '@';
    assert |a| < |path| ==> path[|a|] == '@';
    assert |b| < |path| ==> path[|b|] == '@';
    assert a == path[..|a|] && b == path[..|b|];
  }

  /** The jobs of a run, of all its attempts or of one. */
  datatype JobQuery = AllAttempts(run: int) | OneAttempt(run: int, attempt: int)

  function ListedJobs(server: Server, query: JobQuery): set<int> {
    if query.run !in server.jobs then {}
    else set id | id in server.jobs[query.run] &&
           (query.OneAttempt? ==> server.jobs[query.run][id].attempt == Some(query.attempt))
  }

  function AttemptOf(run: Run): int {
    if run.attempt.Some? then run.attempt.value else 0
  }

  /** Runs are never forgotten, what they were started from never changes, and their
      attempts only count up. The listing of a commit goes on showing what it shows, and
      hides no push run. */
  ghost predicate RunsOnlyGrow(h: History) {
    && (forall t: nat, u: nat, sha: string :: t <= u ==> ListedRuns(h(t), sha) <= ListedRuns(h(u), sha))
    && (forall t: nat :: HidesNothing(h(t)))
    && (forall t: nat, u: nat, id: int :: t <= u && id in h(t).runs ==>
          && id in h(u).runs
          && h(u).runs[id].sha == h(t).runs[id].sha
          && h(u).runs[id].event == h(t).runs[id].event
          && h(u).runs[id].path == h(t).runs[id].path
          && AttemptOf(h(t).runs[id]) <= AttemptOf(h(u).runs[id]))
  }

  ghost predicate HidesNothing(server: Server) {
    forall sha: string :: PushRuns(server, sha) <= ListedRuns(server, sha)
  }

  /** Jobs are never forgotten, and keep name and attempt. */
  ghost predicate JobsOnlyGrow(h: History) {
    forall t: nat, u: nat, run: int, id: int :: t <= u && run in h(t).jobs && id in h(t).jobs[run] ==>
      && run in h(u).jobs && id in h(u).jobs[run]
      && h(u).jobs[run][id].name == h(t).jobs[run][id].name
      && h(u).jobs[run][id].attempt == h(t).jobs[run][id].attempt
  }

  ghost predicate OnlyGrows(h: History) {
    RunsOnlyGrow(h) && JobsOnlyGrow(h)
  }

  /** The reply to a listing of runs, page by page, at the given instants. */
  ghost predicate AreRunsOf(data: seq<Page<Run>>, times: seq<nat>, h: History, sha: string) {
    && IsHonest(data, RUN_ID, times, (t: nat) => ListedRuns(h(t), sha))
    && forall k :: 0 <= k < |data| && IsPage(data[k]) ==>
         forall i :: 0 <= i < |data[k].items.value| ==> RunWasServed(data[k].items.value[i], times[k], h)
  }

  ghost predicate RunWasServed(run: Run, t: nat, h: History) {
    run.id.Some? && run.id.value in h(t).runs && h(t).runs[run.id.value] == run
  }

  ghost predicate AreJobsOf(data: seq<Page<Job>>, times: seq<nat>, h: History, query: JobQuery) {
    && IsHonest(data, JOB_ID, times, (t: nat) => ListedJobs(h(t), query))
    && forall k :: 0 <= k < |data| && IsPage(data[k]) ==>
         forall i :: 0 <= i < |data[k].items.value| ==> JobWasServed(data[k].items.value[i], times[k], h, query)
  }

  ghost predicate JobWasServed(job: Job, t: nat, h: History, query: JobQuery) {
    job.id.Some? && job.id.value in ListedJobs(h(t), query) && h(t).jobs[query.run][job.id.value] == job
  }

  // ----- Soundness ------------------------------------------------------------

  lemma JobListingGrows(h: History, query: JobQuery)
    requires JobsOnlyGrow(h)
    ensures Grows((t: nat) => ListedJobs(h(t), query))
  {
    forall t: nat, u: nat | t <= u
      ensures ListedJobs(h(t), query) <= ListedJobs(h(u), query)
    {
      forall id | id in ListedJobs(h(t), query)
        ensures id in ListedJobs(h(u), query)
      {
        assert query.run in h(t).jobs && id in h(t).jobs[query.run];
        assert id in h(u).jobs[query.run];
      }
    }
  }

  lemma PushRunStays(h: History, sha: string, id: int, t: nat, u: nat)
    requires RunsOnlyGrow(h) && id in h(t).runs && id in h(u).runs
    ensures id in PushRuns(h(t), sha) <==> id in PushRuns(h(u), sha)
  {
    assert t <= u || u <= t;
  }

  lemma ServedPushRunMatches(h: History, sha: string, data: seq<Page<Run>>, times: seq<nat>, run: Run, last: nat)
    requires RunsOnlyGrow(h) && AreRunsOf(data, times, h, sha)
    requires Pages(data, RUN_ID).Ok? && run in Pages(data, RUN_ID).value
    requires run.id.Some? && run.id.value in PushRuns(h(last), sha)
    ensures IsMatch(run, sha)
  {
    var k, i := ItemIsOnAPage(data, run);
    assert RunWasServed(run, times[k], h);
    PushRunStays(h, sha, run.id.value, times[k], last);
    MatchIff(run, sha);
  }

  lemma SelectedIsGreatest(h: History, sha: string, data: seq<Page<Run>>, times: seq<nat>, run: Run, id: int)
    requires RunsOnlyGrow(h) && AreRunsOf(data, times, h, sha) && SelectRun(data, sha) == Ok(Some(run))
    requires times != [] && id in PushRuns(h(times[|times| - 1]), sha)
    ensures run.id.Some? && id <= run.id.value
  {
    var runs := Pages(data, RUN_ID).value;
    AcceptedPagesAreComplete(data, RUN_ID, times, (t: nat) => ListedRuns(h(t), sha), times[|times| - 1]);
    assert id in Ids(runs, RUN_ID);
    var n :| 0 <= n < |runs| && RUN_ID(runs[n]) == Some(id);
    ServedPushRunMatches(h, sha, data, times, runs[n], times[|times| - 1]);
  }

  /** The selected run, as it was served, and nothing newer until the last page. */
  lemma SelectedIsNewest(h: History, sha: string, data: seq<Page<Run>>, times: seq<nat>, run: Run) returns (read: nat)
    requires RunsOnlyGrow(h) && AreRunsOf(data, times, h, sha) && SelectRun(data, sha) == Ok(Some(run))
    ensures times != [] && times[0] <= read <= times[|times| - 1]
    ensures RunWasServed(run, read, h) && IsPushRun(run, sha)
    ensures forall t: nat :: t <= times[|times| - 1] ==> forall id :: id in PushRuns(h(t), sha) ==> id <= run.id.value
  {
    var k, i := ItemIsOnAPage(data, run);
    read := times[k];
    assert k > 0 ==> times[0] <= times[k];
    assert RunWasServed(run, times[k], h);
    MatchIff(run, sha);
    forall t: nat, id | t <= times[|times| - 1] && id in PushRuns(h(t), sha)
      ensures id <= run.id.value
    {
      assert id in h(t).runs && id in h(times[|times| - 1]).runs;
      PushRunStays(h, sha, id, t, times[|times| - 1]);
      SelectedIsGreatest(h, sha, data, times, run, id);
    }
  }

  /** The three reads of one poll, each over its own span of time. */
  datatype Spans = Spans(first: seq<nat>, jobs: seq<nat>, again: seq<nat>)
  {
    ghost predicate InOrder() {
      && (forall i, j :: 0 <= i < |first| && 0 <= j < |jobs| ==> first[i] <= jobs[j])
      && (forall i, j :: 0 <= i < |jobs| && 0 <= j < |again| ==> jobs[i] <= again[j])
    }
  }

  lemma JobsBetweenRuns(spans: Spans, at: nat)
    requires spans.InOrder() && spans.jobs != [] && spans.jobs[0] <= at <= spans.jobs[|spans.jobs| - 1]
    ensures forall k :: 0 <= k < |spans.first| ==> spans.first[k] <= at
    ensures forall k :: 0 <= k < |spans.again| ==> at <= spans.again[k]
  {
    forall k | 0 <= k < |spans.first|
      ensures spans.first[k] <= at
    {
      assert spans.first[k] <= spans.jobs[0];
    }
    forall k | 0 <= k < |spans.again|
      ensures at <= spans.again[k]
    {
      assert spans.jobs[|spans.jobs| - 1] <= spans.again[k];
    }
  }

  /** At instant `t` this is the newest run of the commit, on this attempt. */
  ghost predicate IsCurrentRun(h: History, t: nat, sha: string, id: int, attempt: int) {
    && id in PushRuns(h(t), sha)
    && AttemptOf(h(t).runs[id]) == attempt
    && forall other :: other in PushRuns(h(t), sha) ==> other <= id
  }

  /** Two reads that select the same run on the same attempt pin down every instant
      between them. */
  lemma NothingChangedBetween(
      h: History, sha: string, runs: seq<Page<Run>>, first: seq<nat>, again: seq<Page<Run>>, second: seq<nat>,
      run: Run, latest: Run, at: nat)
    requires RunsOnlyGrow(h) && AreRunsOf(runs, first, h, sha) && AreRunsOf(again, second, h, sha)
    requires SelectRun(runs, sha) == Ok(Some(run)) && SelectRun(again, sha) == Ok(Some(latest))
    requires latest.id == run.id && latest.attempt == run.attempt && run.attempt.Some?
    requires forall k :: 0 <= k < |first| ==> first[k] <= at
    requires forall k :: 0 <= k < |second| ==> at <= second[k]
    ensures run.id.Some? && IsCurrentRun(h, at, sha, run.id.value, run.attempt.value)
  {
    var earlier := SelectedIsNewest(h, sha, runs, first, run);
    var later := SelectedIsNewest(h, sha, again, second, latest);
    var id := run.id.value;
    assert earlier <= at <= later;
    assert id in h(earlier).runs && id in h(at).runs && id in h(later).runs;
    assert AttemptOf(h(earlier).runs[id]) <= AttemptOf(h(at).runs[id]) <= AttemptOf(h(later).runs[id]);
    assert at <= second[|second| - 1];
    assert id in PushRuns(h(earlier), sha);
    PushRunStays(h, sha, id, earlier, at);
  }

  /** A job of the given name, attempt and commit that has succeeded. */
  predicate HasSucceeded(job: Job, name: string, attempt: int, sha: string) {
    && job.name == Some(name) && job.attempt == Some(attempt) && job.sha == Some(sha)
    && job.status == Some(COMPLETED) && job.conclusion == Some(SUCCESS)
  }

  lemma PassMeansSuccess(run: Run, data: seq<Page<Job>>, sha: string)
    requires Classify(run, data, sha) == Ok(Pass)
    ensures run.attempt.Some? && Pages(data, JOB_ID).Ok?
    ensures var jobs := Pages(data, JOB_ID).value;
      && Current(jobs, run.attempt.value).Some?
      && HasSucceeded(Current(jobs, run.attempt.value).value, REQUIRED, run.attempt.value, sha)
  {
    var jobs := Pages(data, JOB_ID).value;
    var job := Current(jobs, run.attempt.value).value;
    var i :| 0 <= i < |jobs| && jobs[i] == job;
  }

  lemma RequiredIsCurrent(jobs: seq<Job>, attempt: int, job: Job)
    requires RequiredAttemptsDiffer(jobs)
    requires job in jobs && IsRequired(job) && job.attempt == Some(attempt)
    ensures Current(jobs, attempt) == Some(job)
  {
    var found := Current(jobs, attempt).value;
    var i :| 0 <= i < |jobs| && jobs[i] == job;
    var j :| 0 <= j < |jobs| && jobs[j] == found;
  }

  /** A recognised run with a readable job listing. */
  predicate IsJudged(run: Run, data: seq<Page<Job>>, sha: string) {
    && run.attempt.Some? && run.attempt.value >= 1
    && run.status.Some? && run.status.value in STATUSES
    && Pages(data, JOB_ID).Ok?
    && var jobs := Pages(data, JOB_ID).value;
    && (forall job :: job in jobs ==>
          job.sha == Some(sha) && job.attempt.Some? && 1 <= job.attempt.value <= run.attempt.value)
    && (forall a, b :: a in jobs && b in jobs && IsRequired(a) && IsRequired(b) && a.attempt == b.attempt ==>
          a.id == b.id)
  }

  const STATUSES := ["queued", "in_progress", "waiting", "requested", "pending", "completed"]

  lemma StatusIff(status: Option<string>)
    ensures IsPending(status) || status == Some(COMPLETED) <==> status.Some? && status.value in STATUSES
    ensures IsPending(status) ==> status != Some(COMPLETED)
  {}

  /** Ids are as good as positions. */
  lemma AttemptsDifferIff(jobs: seq<Job>)
    requires IdsAreValid(jobs, JOB_ID)
    ensures RequiredAttemptsDiffer(jobs) <==>
      forall a, b :: a in jobs && b in jobs && IsRequired(a) && IsRequired(b) && a.attempt == b.attempt ==> a.id == b.id
  {
    assert forall i :: 0 <= i < |jobs| ==> JOB_ID(jobs[i]) == jobs[i].id && jobs[i] in jobs;
  }

  /** The three verdicts in terms of the jobs listed, and when there is none. */
  lemma ClassifyIff(run: Run, data: seq<Page<Job>>, sha: string)
    ensures Classify(run, data, sha).Ok? <==> IsJudged(run, data, sha)
    ensures IsJudged(run, data, sha) ==>
      var jobs, attempt := Pages(data, JOB_ID).value, run.attempt.value;
      && (Classify(run, data, sha) == Ok(Pass) <==>
            exists job :: job in jobs && HasSucceeded(job, REQUIRED, attempt, sha))
      && (Classify(run, data, sha) == Ok(Pending) <==>
            run.status != Some(COMPLETED) &&
            forall job :: job in jobs && IsRequired(job) && job.attempt == Some(attempt) ==>
              job.status.Some? && job.status.value in STATUSES && job.status != Some(COMPLETED) && job.conclusion.None?)
  {
    StatusIff(run.status);
    if Pages(data, JOB_ID).Ok? {
      AttemptsDifferIff(Pages(data, JOB_ID).value);
    }
    if IsJudged(run, data, sha) {
      var jobs, attempt := Pages(data, JOB_ID).value, run.attempt.value;
      forall job | job in jobs && IsRequired(job) && job.attempt == Some(attempt)
        ensures Current(jobs, attempt) == Some(job) && job.sha == Some(sha)
      {
        RequiredIsCurrent(jobs, attempt, job);
        StatusIff(job.status);
      }
    }
  }

  lemma ClassifiedHasAttempt(run: Run, data: seq<Page<Job>>, sha: string)
    ensures Classify(run, data, sha).Ok? ==> run.attempt.Some?
  {}

  /** Both reads select one run, on one attempt. */
  predicate BothSelect(replies: Replies, sha: string) {
    var first, second := SelectRun(replies.runs, sha), SelectRun(replies.again, sha);
    && first.Ok? && first.value.Some? && second.Ok? && second.value.Some?
    && first.value.value.id == second.value.value.id && first.value.value.attempt == second.value.value.attempt
  }

  /** A poll says nothing final but what the jobs of one run say that is the newest, on
      one attempt, at both reads; and what they say, it says. */
  lemma PollFinalIff(replies: Replies, sha: string, verdict: Verdict)
    requires verdict != Pending
    ensures Poll(replies, sha) == Ok(verdict) <==>
      BothSelect(replies, sha) && Classify(SelectRun(replies.runs, sha).value.value, replies.jobs, sha) == Ok(verdict)
  {
    if SelectRun(replies.runs, sha).Ok? && SelectRun(replies.runs, sha).value.Some? {
      ClassifiedHasAttempt(SelectRun(replies.runs, sha).value.value, replies.jobs, sha);
    }
  }

  /** While the run listing stands still, a poll waits for a run and then says what its
      jobs say. */
  lemma PollOfSteadyRuns(replies: Replies, sha: string)
    requires SelectRun(replies.again, sha) == SelectRun(replies.runs, sha)
    ensures Poll(replies, sha) ==
      match SelectRun(replies.runs, sha)
      case Err(malformed) => Err(malformed)
      case Ok(None) => Ok(Pending)
      case Ok(Some(run)) => Classify(run, replies.jobs, sha)
  {
    if SelectRun(replies.runs, sha).Ok? && SelectRun(replies.runs, sha).value.Some? {
      ClassifiedHasAttempt(SelectRun(replies.runs, sha).value.value, replies.jobs, sha);
    }
  }

  /** When another run or attempt has taken its place, a readable poll waits. */
  lemma PollOfChangedRun(replies: Replies, sha: string, run: Run)
    requires SelectRun(replies.runs, sha) == Ok(Some(run)) && Classify(run, replies.jobs, sha).Ok?
    requires SelectRun(replies.again, sha).Ok?
    requires var latest := SelectRun(replies.again, sha).value;
      latest.Some? ==> latest.value.attempt.Some? &&
                       (latest.value.id != run.id || latest.value.attempt != run.attempt)
    ensures Poll(replies, sha) == Ok(Pending)
  {}

  /** The replies are what the server had, page by page and in order. */
  ghost predicate IsFairPoll(h: History, sha: string, replies: Replies, spans: Spans) {
    && OnlyGrows(h) && spans.InOrder() && spans.jobs != []
    && AreRunsOf(replies.runs, spans.first, h, sha) && AreRunsOf(replies.again, spans.again, h, sha)
    && forall selected: Run :: SelectRun(replies.runs, sha) == Ok(Some(selected)) && selected.id.Some? ==>
         AreJobsOf(replies.jobs, spans.jobs, h, AllAttempts(selected.id.value))
  }

  /** Over every history of the server: when a poll passes, then throughout the
      reading of the jobs the run was the newest push run of the exact commit, on the
      attempt that was judged, and its Required CI job was served as completed with
      success. */
  lemma PollPassIsSound(h: History, sha: string, replies: Replies, spans: Spans, at: nat)
    returns (run: Run, job: Job, read: nat)
    requires IsFairPoll(h, sha, replies, spans) && Poll(replies, sha) == Ok(Pass)
    requires spans.jobs[0] <= at <= spans.jobs[|spans.jobs| - 1]
    ensures run.id.Some? && run.attempt.Some?
    ensures IsCurrentRun(h, at, sha, run.id.value, run.attempt.value)
    ensures read in spans.jobs && JobWasServed(job, read, h, AllAttempts(run.id.value))
    ensures HasSucceeded(job, "Required CI", run.attempt.value, sha)
  {
    run := SelectRun(replies.runs, sha).value.value;
    var latest := SelectRun(replies.again, sha).value.value;
    PassMeansSuccess(run, replies.jobs, sha);
    JobsBetweenRuns(spans, at);
    NothingChangedBetween(h, sha, replies.runs, spans.first, replies.again, spans.again, run, latest, at);
    job := Current(Pages(replies.jobs, JOB_ID).value, run.attempt.value).value;
    var k, i := ItemIsOnAPage(replies.jobs, job);
    read := spans.jobs[k];
  }

  lemma FailMeans(run: Run, data: seq<Page<Job>>, sha: string)
    requires Classify(run, data, sha) == Ok(Fail)
    ensures run.attempt.Some? && Pages(data, JOB_ID).Ok?
    ensures match Current(Pages(data, JOB_ID).value, run.attempt.value)
            case None => run.status == Some(COMPLETED)
            case Some(job) => HasFailed(job, run)
  {}

  /** Nor does it fail without cause: throughout the reading of the jobs the run was the
      newest of the commit on its attempt, and either its Required CI job was served as
      something else than a success or on the way to one, or the run was completed and
      had no such job. */
  lemma PollFailIsSound(h: History, sha: string, replies: Replies, spans: Spans, at: nat) returns (run: Run)
    requires IsFairPoll(h, sha, replies, spans) && Poll(replies, sha) == Ok(Fail)
    requires spans.jobs[0] <= at <= spans.jobs[|spans.jobs| - 1]
    ensures run.id.Some? && run.attempt.Some?
    ensures IsCurrentRun(h, at, sha, run.id.value, run.attempt.value)
    ensures
      || (run.status == Some(COMPLETED) &&
          forall id :: !IsNamedAt(h(at), AllAttempts(run.id.value), id, REQUIRED, run.attempt.value))
      || exists job: Job, read: nat ::
           && read in spans.jobs && JobWasServed(job, read, h, AllAttempts(run.id.value))
           && job.name == Some(REQUIRED) && job.attempt == run.attempt && HasFailed(job, run)
  {
    PollFinalIff(replies, sha, Fail);
    run := SelectRun(replies.runs, sha).value.value;
    var latest := SelectRun(replies.again, sha).value.value;
    FailMeans(run, replies.jobs, sha);
    var jobs := Pages(replies.jobs, JOB_ID).value;
    JobsBetweenRuns(spans, at);
    NothingChangedBetween(h, sha, replies.runs, spans.first, replies.again, spans.again, run, latest, at);
    match Current(jobs, run.attempt.value)
    case Some(job) =>
      var k, i := ItemIsOnAPage(replies.jobs, job);
      assert spans.jobs[k] in spans.jobs && JobWasServed(job, spans.jobs[k], h, AllAttempts(run.id.value));
    case None =>
      forall id | IsNamedAt(h(at), AllAttempts(run.id.value), id, REQUIRED, run.attempt.value)
        ensures false
      {
        var job := EveryJobWasRead(h, replies.jobs, spans.jobs, AllAttempts(run.id.value), at, id);
      }
  }

  /** Neither a success nor, of a run that goes on, a job that is still to come to its
      conclusion. */
  predicate HasFailed(job: Job, run: Run) {
    && !(job.status == Some(COMPLETED) && job.conclusion == Some(SUCCESS))
    && !(IsPending(job.status) && job.conclusion.None? && run.status != Some(COMPLETED))
  }

  // ----- A server that stands still -------------------------------------------

  /** The same run with the same job at every instant. */
  function Steady(run: Run, job: Job, sha: string): History
    requires run.id.Some? && job.id.Some?
  {
    (t: nat) => Server(sha, map[run.id.value := run], map[run.id.value := map[job.id.value := job]],
                        map[sha := {run.id.value}])
  }

  function OnePage<T>(item: T): seq<Page<T>> {
    [Page(Some(1), Some([item]))]
  }

  lemma OnePageIsRead<T>(item: T, id: T -> Option<int>)
    requires id(item).Some? && id(item).value > 0
    ensures Pages(OnePage(item), id) == Ok([item])
  {
    assert OnePage(item)[..0] == [] && Items(OnePage(item)) == [item];
  }

  /** The commit's run on its attempt, and its successful Required CI job. */
  predicate IsSuccess(run: Run, job: Job, sha: string) {
    && IsMatch(run, sha) && run.id.Some? && run.id.value > 0
    && run.attempt.Some? && run.attempt.value >= 1 && run.status == Some(COMPLETED)
    && job.id.Some? && job.id.value > 0 && HasSucceeded(job, REQUIRED, run.attempt.value, sha)
  }

  lemma SteadyOnlyGrows(run: Run, job: Job, sha: string)
    requires IsSuccess(run, job, sha)
    ensures OnlyGrows(Steady(run, job, sha))
  {
    assert forall t: nat, other: string, id :: id in PushRuns(Steady(run, job, sha)(t), other) ==> other == sha;
  }

  lemma SteadyRunsAreHonest(run: Run, job: Job, sha: string, t: nat)
    requires IsSuccess(run, job, sha)
    ensures AreRunsOf(OnePage(run), [t], Steady(run, job, sha), sha)
  {
    assert ListedRuns(Steady(run, job, sha)(t), sha) == {run.id.value};
  }

  lemma SteadyJobsAreHonest(run: Run, job: Job, sha: string, t: nat)
    requires IsSuccess(run, job, sha)
    ensures AreJobsOf(OnePage(job), [t], Steady(run, job, sha), AllAttempts(run.id.value))
  {
    assert ListedJobs(Steady(run, job, sha)(t), AllAttempts(run.id.value)) == {job.id.value};
  }

  lemma SteadyIsSelected(run: Run, job: Job, sha: string)
    requires IsSuccess(run, job, sha)
    ensures SelectRun(OnePage(run), sha) == Ok(Some(run))
  {
    OnePageIsRead(run, RUN_ID);
  }

  lemma SteadyPasses(run: Run, job: Job, sha: string)
    requires IsSuccess(run, job, sha)
    ensures Classify(run, OnePage(job), sha) == Ok(Pass)
  {
    OnePageIsRead(job, JOB_ID);
    ClassifyIff(run, OnePage(job), sha);
    assert job in [job];
  }

  function SteadyReplies(run: Run, job: Job): Replies {
    Replies(OnePage(run), OnePage(job), OnePage(run))
  }

  lemma SteadyIsFair(run: Run, job: Job, sha: string)
    requires IsSuccess(run, job, sha)
    ensures IsFairPoll(Steady(run, job, sha), sha, SteadyReplies(run, job), Spans([0], [1], [2]))
  {
    SteadyOnlyGrows(run, job, sha);
    SteadyRunsAreHonest(run, job, sha, 0);
    SteadyJobsAreHonest(run, job, sha, 1);
    SteadyRunsAreHonest(run, job, sha, 2);
    SteadyIsSelected(run, job, sha);
    assert Spans([0], [1], [2]).InOrder();
  }

  lemma SteadyPollPasses(run: Run, job: Job, sha: string)
    requires IsSuccess(run, job, sha)
    ensures Poll(SteadyReplies(run, job), sha) == Ok(Pass)
  {
    SteadyIsSelected(run, job, sha);
    SteadyPasses(run, job, sha);
    PollFinalIff(SteadyReplies(run, job), sha, Pass);
  }

  /** A server that stands still with a successful run lets the poll pass: soundness is
      not about a gate that never opens. */
  lemma SteadyServerPasses(run: Run, job: Job, sha: string)
    requires IsSuccess(run, job, sha)
    ensures exists replies: Replies, spans: Spans ::
      IsFairPoll(Steady(run, job, sha), sha, replies, spans) && Poll(replies, sha) == Ok(Pass)
  {
    SteadyIsFair(run, job, sha);
    SteadyPollPasses(run, job, sha);
  }

  /** Accepted job pages leave no job out: each job the run has at an instant of the
      reading is among them, under its name and attempt. */
  lemma EveryJobWasRead(h: History, data: seq<Page<Job>>, times: seq<nat>, query: JobQuery, at: nat, id: int)
    returns (job: Job)
    requires JobsOnlyGrow(h) && AreJobsOf(data, times, h, query) && Pages(data, JOB_ID).Ok?
    requires times[0] <= at <= times[|times| - 1] && id in ListedJobs(h(at), query)
    ensures job in Pages(data, JOB_ID).value && job.id == Some(id)
    ensures job.name == h(at).jobs[query.run][id].name && job.attempt == h(at).jobs[query.run][id].attempt
  {
    var jobs := Pages(data, JOB_ID).value;
    JobListingGrows(h, query);
    AcceptedPagesAreComplete(data, JOB_ID, times, (t: nat) => ListedJobs(h(t), query), at);
    var n :| 0 <= n < |jobs| && JOB_ID(jobs[n]) == Some(id);
    job := jobs[n];
    var k, i := ItemIsOnAPage(data, job);
    assert JobWasServed(job, times[k], h, query);
    assert times[k] <= at || at <= times[k];
  }

  // ----- The runtime jobs of one attempt --------------------------------------

  const JOB_NAMES := [REQUIRED, "Build & Tests", "Daemon Integration Tests", "Standard artifact daemon acceptance"]

  predicate IsSha(sha: string) {
    |sha| == 40 && forall i :: 0 <= i < 40 ==> '0' <= sha[i] <= '9' || 'a' <= sha[i] <= 'f'
  }

  lemma ShaIff(sha: string)
    ensures IsSha(sha) <==> |sha| == 40 && forall c :: c in sha ==> c in "0123456789abcdef"
  {
    assert forall i :: 0 <= i < |sha| ==> sha[i] in sha;
    assert forall c: char :: c in "0123456789abcdef" <==> '0' <= c <= '9' || 'a' <= c <= 'f';
  }

  function Named(jobs: seq<Job>, name: string, attempt: int): (named: seq<Job>)
    ensures forall job :: job in named <==> job in jobs && job.name == Some(name) && job.attempt == Some(attempt)
  {
    if jobs == [] then []
    else if jobs[0].name == Some(name) && jobs[0].attempt == Some(attempt) then
      [jobs[0]] + Named(jobs[1..], name, attempt)
    else
      Named(jobs[1..], name, attempt)
  }

  predicate IsRuntimeEvidence(jobs: seq<Job>, name: string, attempt: int, sha: string) {
    |Named(jobs, name, attempt)| == 1 && HasSucceeded(Named(jobs, name, attempt)[0], name, attempt, sha)
  }

  predicate AllEvidence(jobs: seq<Job>, attempt: int, sha: string) {
    forall i :: 0 <= i < |JOB_NAMES| ==> IsRuntimeEvidence(jobs, JOB_NAMES[i], attempt, sha)
  }

  function Chosen(jobs: seq<Job>, attempt: int, sha: string): seq<Job>
    requires AllEvidence(jobs, attempt, sha)
  {
    seq(|JOB_NAMES|, i requires 0 <= i < |JOB_NAMES| =>
      assert IsRuntimeEvidence(jobs, JOB_NAMES[i], attempt, sha);
      Named(jobs, JOB_NAMES[i], attempt)[0])
  }

  function RequireRuntimeJobs(run: Run, jobs: seq<Job>, sha: string): Result<seq<Job>, Malformed> {
    if !IsSha(sha) || run.sha != Some(sha) || run.attempt.None? || run.attempt.value < 1 then Err(Malformed)
    else if AllEvidence(jobs, run.attempt.value, sha) then Ok(Chosen(jobs, run.attempt.value, sha))
    else Err(Malformed)
  }

  /** The appending loop computes `RequireRuntimeJobs`. */
  method CollectRuntimeJobs(run: Run, jobs: seq<Job>, sha: string) returns (result: Result<seq<Job>, Malformed>)
    ensures result == RequireRuntimeJobs(run, jobs, sha)
  {
    if !IsSha(sha) || run.sha != Some(sha) || run.attempt.None? || run.attempt.value < 1 {
      return Err(Malformed);
    }
    var chosen: seq<Job> := [];
    for i := 0 to |JOB_NAMES|
      invariant |chosen| == i
      invariant forall k :: 0 <= k < i ==>
        IsRuntimeEvidence(jobs, JOB_NAMES[k], run.attempt.value, sha) &&
        chosen[k] == Named(jobs, JOB_NAMES[k], run.attempt.value)[0]
    {
      var matches := Named(jobs, JOB_NAMES[i], run.attempt.value);
      assert matches != [] ==> matches[0] in matches;
      if |matches| != 1 || matches[0].sha != Some(sha) || matches[0].status != Some(COMPLETED)
         || matches[0].conclusion != Some(SUCCESS) {
        return Err(Malformed);
      }
      chosen := chosen + [matches[0]];
    }
    assert AllEvidence(jobs, run.attempt.value, sha);
    assert chosen == Chosen(jobs, run.attempt.value, sha);
    return Ok(chosen);
  }

  predicate IsNamedAt(server: Server, query: JobQuery, id: int, name: string, attempt: int) {
    && id in ListedJobs(server, query)
    && server.jobs[query.run][id].name == Some(name)
    && server.jobs[query.run][id].attempt == Some(attempt)
  }

  /** At instant `at` this was the one job of its name in the attempt, and it was
      served as completed with success. */
  ghost predicate IsEvidenceFor(
      h: History, at: nat, times: seq<nat>, query: JobQuery, name: string, attempt: int, sha: string, job: Job)
  {
    && HasSucceeded(job, name, attempt, sha)
    && (exists read :: read in times && JobWasServed(job, read, h, query))
    && (forall id :: IsNamedAt(h(at), query, id, name, attempt) ==> job.id == Some(id))
  }

  /** Each of the four names has such a job. */
  ghost predicate IsEvidence(
      h: History, at: nat, times: seq<nat>, query: JobQuery, attempt: int, sha: string, chosen: seq<Job>)
  {
    && |chosen| == |JOB_NAMES|
    && forall i :: 0 <= i < |JOB_NAMES| ==>
         IsEvidenceFor(h, at, times, query, JOB_NAMES[i], attempt, sha, chosen[i])
  }

  lemma OneNamedJobIsEvidence(
      h: History, data: seq<Page<Job>>, times: seq<nat>, query: JobQuery, name: string, attempt: int, sha: string,
      at: nat)
    requires JobsOnlyGrow(h) && AreJobsOf(data, times, h, query) && Pages(data, JOB_ID).Ok?
    requires times[0] <= at <= times[|times| - 1]
    requires IsRuntimeEvidence(Pages(data, JOB_ID).value, name, attempt, sha)
    ensures IsEvidenceFor(h, at, times, query, name, attempt, sha, Named(Pages(data, JOB_ID).value, name, attempt)[0])
  {
    var named := Named(Pages(data, JOB_ID).value, name, attempt);
    assert named[0] in named;
    var k, n := ItemIsOnAPage(data, named[0]);
    assert times[k] in times && JobWasServed(named[0], times[k], h, query);
    forall id | IsNamedAt(h(at), query, id, name, attempt)
      ensures named[0].id == Some(id)
    {
      NamedJobWasRead(h, data, times, query, name, attempt, at, id);
    }
  }

  lemma NamedJobWasRead(
      h: History, data: seq<Page<Job>>, times: seq<nat>, query: JobQuery, name: string, attempt: int, at: nat, id: int)
    requires JobsOnlyGrow(h) && AreJobsOf(data, times, h, query) && Pages(data, JOB_ID).Ok?
    requires times[0] <= at <= times[|times| - 1]
    requires IsNamedAt(h(at), query, id, name, attempt)
    requires |Named(Pages(data, JOB_ID).value, name, attempt)| == 1
    ensures Named(Pages(data, JOB_ID).value, name, attempt)[0].id == Some(id)
  {
    var job := EveryJobWasRead(h, data, times, query, at, id);
    OnlyOneIsNamed(Pages(data, JOB_ID).value, name, attempt, job);
  }

  lemma OnlyOneIsNamed(jobs: seq<Job>, name: string, attempt: int, job: Job)
    requires |Named(jobs, name, attempt)| == 1
    requires job in jobs && job.name == Some(name) && job.attempt == Some(attempt)
    ensures Named(jobs, name, attempt)[0] == job
  {
    assert job in Named(jobs, name, attempt);
  }

  lemma RuntimeJobsAreEvidence(
      h: History, data: seq<Page<Job>>, times: seq<nat>, query: JobQuery, run: Run, sha: string, at: nat)
    requires JobsOnlyGrow(h) && AreJobsOf(data, times, h, query) && Pages(data, JOB_ID).Ok?
    requires times[0] <= at <= times[|times| - 1]
    requires RequireRuntimeJobs(run, Pages(data, JOB_ID).value, sha).Ok?
    ensures IsEvidence(h, at, times, query, run.attempt.value, sha,
                       RequireRuntimeJobs(run, Pages(data, JOB_ID).value, sha).value)
  {
    var jobs := Pages(data, JOB_ID).value;
    forall i | 0 <= i < |JOB_NAMES|
      ensures IsEvidenceFor(h, at, times, query, JOB_NAMES[i], run.attempt.value, sha,
                            Chosen(jobs, run.attempt.value, sha)[i])
    {
      assert IsRuntimeEvidence(jobs, JOB_NAMES[i], run.attempt.value, sha);
      OneNamedJobIsEvidence(h, data, times, query, JOB_NAMES[i], run.attempt.value, sha, at);
    }
  }

  // ----- An explicitly selected run -------------------------------------------

  datatype SelectedReplies = SelectedReplies(run: seq<Option<Run>>, jobs: seq<Page<Job>>, again: seq<Option<Run>>)

  /** One page holding the run asked for, completed with success. */
  function SelectedRun(reply: seq<Option<Run>>, runId: int, sha: string): Result<Run, Malformed> {
    if |reply| != 1 || reply[0].None? then Err(Malformed)
    else
      var run := reply[0].value;
      if run.id != Some(runId) || run.sha != Some(sha) || run.path.None? || BeforeAt(run.path.value) != WORKFLOW
         || run.status != Some(COMPLETED) || run.conclusion != Some(SUCCESS)
         || run.attempt.None? || run.attempt.value < 1
      then Err(Malformed) else Ok(run)
  }

  function ObserveSelected(replies: SelectedReplies, sha: string, runId: int): Result<seq<Job>, Malformed> {
    if !IsSha(sha) || runId <= 0 then Err(Malformed)
    else
      var run :- SelectedRun(replies.run, runId, sha);
      var jobs :- Pages(replies.jobs, JOB_ID);
      var chosen :- RequireRuntimeJobs(run, jobs, sha);
      var latest :- SelectedRun(replies.again, runId, sha);
      if latest.attempt != run.attempt then Err(Malformed) else Ok(chosen)
  }

  ghost predicate IsRunOf(reply: seq<Option<Run>>, t: nat, h: History, runId: int) {
    |reply| == 1 && reply[0].Some? ==> runId in h(t).runs && h(t).runs[runId] == reply[0].value
  }

  lemma SelectedAccepted(replies: SelectedReplies, sha: string, runId: int) returns (run: Run)
    requires ObserveSelected(replies, sha, runId).Ok?
    ensures SelectedRun(replies.run, runId, sha) == Ok(run)
    ensures SelectedRun(replies.again, runId, sha).Ok?
    ensures SelectedRun(replies.again, runId, sha).value.attempt == run.attempt
    ensures Pages(replies.jobs, JOB_ID).Ok?
    ensures RequireRuntimeJobs(run, Pages(replies.jobs, JOB_ID).value, sha) == ObserveSelected(replies, sha, runId)
  {
    run := SelectedRun(replies.run, runId, sha).value;
  }

  /** The server has the run: of the CI workflow, on the commit, completed with success,
      and on this attempt. */
  predicate IsGreen(server: Server, runId: int, sha: string, attempt: int) {
    && runId in server.runs
    && var run := server.runs[runId];
    && run.id == Some(runId) && run.sha == Some(sha)
    && run.path.Some? && BeforeAt(run.path.value) == ".github/workflows/ci.yml"
    && run.status == Some("completed") && run.conclusion == Some("success")
    && run.attempt == Some(attempt) && attempt >= 1
  }

  /** When a selected run is accepted, it was the workflow's run of the commit, completed
      with success, at both reads; its attempt stood still throughout the reading of the
      jobs, and the four jobs are the evidence of exactly that attempt. */
  lemma ObserveSelectedIsSound(
      h: History, sha: string, runId: int, replies: SelectedReplies, first: nat, times: seq<nat>, second: nat, at: nat)
    returns (attempt: int)
    requires OnlyGrows(h)
    requires IsRunOf(replies.run, first, h, runId) && IsRunOf(replies.again, second, h, runId)
    requires forall run :: SelectedRun(replies.run, runId, sha) == Ok(run) ==>
      AreJobsOf(replies.jobs, times, h, OneAttempt(runId, run.attempt.value))
    requires times != [] && first <= times[0] <= at <= times[|times| - 1] <= second
    requires ObserveSelected(replies, sha, runId).Ok?
    ensures IsSha(sha) && runId > 0
    ensures IsGreen(h(first), runId, sha, attempt) && IsGreen(h(second), runId, sha, attempt)
    ensures runId in h(at).runs && h(at).runs[runId].sha == Some(sha) && AttemptOf(h(at).runs[runId]) == attempt
    ensures IsEvidence(h, at, times, OneAttempt(runId, attempt), attempt, sha,
                       ObserveSelected(replies, sha, runId).value)
  {
    var run := SelectedAccepted(replies, sha, runId);
    attempt := run.attempt.value;
    assert runId in h(first).runs && runId in h(at).runs && runId in h(second).runs;
    assert AttemptOf(h(first).runs[runId]) <= AttemptOf(h(at).runs[runId]) <= AttemptOf(h(second).runs[runId]);
    RuntimeJobsAreEvidence(h, replies.jobs, times, OneAttempt(runId, attempt), run, sha, at);
  }

  lemma {:induction false} NamedAreDistinct(jobs: seq<Job>, name: string, attempt: int)
    requires IdsAreValid(jobs, JOB_ID)
    ensures IdsAreValid(Named(jobs, name, attempt), JOB_ID)
  {
    if jobs != [] {
      var rest, named := jobs[1..], Named(jobs[1..], name, attempt);
      NamedAreDistinct(rest, name, attempt);
      forall i | 0 <= i < |named|
        ensures JOB_ID(named[i]) != JOB_ID(jobs[0])
      {
        assert named[i] in rest;
        var k :| 0 <= k < |rest| && rest[k] == named[i];
        assert jobs[k + 1] == rest[k];
      }
    }
  }

  /** The server has exactly one job of the name in the attempt, and it has succeeded. */
  ghost predicate HasOneSuccess(server: Server, query: JobQuery, name: string, attempt: int, sha: string) {
    exists id ::
      && IsNamedAt(server, query, id, name, attempt)
      && HasSucceeded(server.jobs[query.run][id], name, attempt, sha)
      && forall other :: IsNamedAt(server, query, other, name, attempt) ==> other == id
  }

  /** Of a server that stands still, the evidence read is the evidence there. */
  lemma EvidenceIff(
      server: Server, data: seq<Page<Job>>, times: seq<nat>, query: JobQuery, name: string, attempt: int, sha: string)
    requires AreJobsOf(data, times, (t: nat) => server, query) && Pages(data, JOB_ID).Ok?
    ensures IsRuntimeEvidence(Pages(data, JOB_ID).value, name, attempt, sha) <==>
      HasOneSuccess(server, query, name, attempt, sha)
  {
    if IsRuntimeEvidence(Pages(data, JOB_ID).value, name, attempt, sha) {
      EvidenceIsThere(server, data, times, query, name, attempt, sha);
    }
    if HasOneSuccess(server, query, name, attempt, sha) {
      EvidenceIsRead(server, data, times, query, name, attempt, sha);
    }
  }

  lemma ReadJobIsThere(server: Server, data: seq<Page<Job>>, times: seq<nat>, query: JobQuery, job: Job)
    requires AreJobsOf(data, times, (t: nat) => server, query) && Pages(data, JOB_ID).Ok?
    requires job in Pages(data, JOB_ID).value
    ensures job.id.Some? && job.id.value in ListedJobs(server, query) && server.jobs[query.run][job.id.value] == job
  {
    var k, i := ItemIsOnAPage(data, job);
    assert JobWasServed(job, times[k], (t: nat) => server, query);
  }

  lemma EvidenceIsThere(
      server: Server, data: seq<Page<Job>>, times: seq<nat>, query: JobQuery, name: string, attempt: int, sha: string)
    requires AreJobsOf(data, times, (t: nat) => server, query) && Pages(data, JOB_ID).Ok?
    requires IsRuntimeEvidence(Pages(data, JOB_ID).value, name, attempt, sha)
    ensures HasOneSuccess(server, query, name, attempt, sha)
  {
    var named := Named(Pages(data, JOB_ID).value, name, attempt);
    assert named[0] in named;
    ReadJobIsThere(server, data, times, query, named[0]);
    var id := named[0].id.value;
    assert IsNamedAt(server, query, id, name, attempt);
    forall other | IsNamedAt(server, query, other, name, attempt)
      ensures other == id
    {
      NamedJobWasRead((t: nat) => server, data, times, query, name, attempt, times[0], other);
    }
  }

  lemma EvidenceIsRead(
      server: Server, data: seq<Page<Job>>, times: seq<nat>, query: JobQuery, name: string, attempt: int, sha: string)
    requires AreJobsOf(data, times, (t: nat) => server, query) && Pages(data, JOB_ID).Ok?
    requires HasOneSuccess(server, query, name, attempt, sha)
    ensures IsRuntimeEvidence(Pages(data, JOB_ID).value, name, attempt, sha)
  {
    var jobs := Pages(data, JOB_ID).value;
    var named := Named(jobs, name, attempt);
    var id :| IsNamedAt(server, query, id, name, attempt)
      && HasSucceeded(server.jobs[query.run][id], name, attempt, sha)
      && forall other :: IsNamedAt(server, query, other, name, attempt) ==> other == id;
    var job := EveryJobWasRead((t: nat) => server, data, times, query, times[0], id);
    ReadJobIsThere(server, data, times, query, job);
    assert job in named;
    forall i | 0 <= i < |named|
      ensures named[i] == job
    {
      assert named[i] in named;
      ReadJobIsThere(server, data, times, query, named[i]);
      assert IsNamedAt(server, query, named[i].id.value, name, attempt);
    }
    NamedAreDistinct(jobs, name, attempt);
    FirstTwoDiffer(named);
  }

  lemma FirstTwoDiffer(jobs: seq<Job>)
    requires IdsAreValid(jobs, JOB_ID)
    ensures |jobs| > 1 ==> jobs[0] != jobs[1]
  {
    if |jobs| > 1 {
      assert JOB_ID(jobs[0]) != JOB_ID(jobs[1]);
    }
  }

  function RunReply(server: Server, runId: int): seq<Option<Run>> {
    [if runId in server.runs then Some(server.runs[runId]) else None]
  }

  /** Each of the four required jobs. */
  ghost predicate HasTheFour(server: Server, query: JobQuery, attempt: int, sha: string) {
    && HasOneSuccess(server, query, "Required CI", attempt, sha)
    && HasOneSuccess(server, query, "Build & Tests", attempt, sha)
    && HasOneSuccess(server, query, "Daemon Integration Tests", attempt, sha)
    && HasOneSuccess(server, query, "Standard artifact daemon acceptance", attempt, sha)
  }

  lemma TheFourIff(server: Server, query: JobQuery, attempt: int, sha: string)
    ensures HasTheFour(server, query, attempt, sha) <==>
      forall i :: 0 <= i < |JOB_NAMES| ==> HasOneSuccess(server, query, JOB_NAMES[i], attempt, sha)
  {
    var names := JOB_NAMES;
    assert |names| == 4;
    if forall i :: 0 <= i < |names| ==> HasOneSuccess(server, query, names[i], attempt, sha) {
      assert HasOneSuccess(server, query, names[0], attempt, sha);
      assert HasOneSuccess(server, query, names[1], attempt, sha);
      assert HasOneSuccess(server, query, names[2], attempt, sha);
      assert HasOneSuccess(server, query, names[3], attempt, sha);
    }
  }

  lemma AllEvidenceIff(
      server: Server, data: seq<Page<Job>>, times: seq<nat>, query: JobQuery, attempt: int, sha: string)
    requires AreJobsOf(data, times, (t: nat) => server, query) && Pages(data, JOB_ID).Ok?
    ensures AllEvidence(Pages(data, JOB_ID).value, attempt, sha) <==> HasTheFour(server, query, attempt, sha)
  {
    TheFourIff(server, query, attempt, sha);
    forall i | 0 <= i < |JOB_NAMES|
      ensures IsRuntimeEvidence(Pages(data, JOB_ID).value, JOB_NAMES[i], attempt, sha) <==>
        HasOneSuccess(server, query, JOB_NAMES[i], attempt, sha)
    {
      EvidenceIff(server, data, times, query, JOB_NAMES[i], attempt, sha);
    }
  }

  /** Of a server that stands still, a selected run is accepted if and only if it is such
      a run and each of the four names has exactly one job in its attempt, a success. */
  lemma ObserveSelectedIff(server: Server, sha: string, runId: int, jobs: seq<Page<Job>>, times: seq<nat>, attempt: int)
    requires runId in server.runs && server.runs[runId].attempt.Some? ==> server.runs[runId].attempt.value == attempt
    requires AreJobsOf(jobs, times, (t: nat) => server, OneAttempt(runId, attempt)) && Pages(jobs, JOB_ID).Ok?
    ensures ObserveSelected(SelectedReplies(RunReply(server, runId), jobs, RunReply(server, runId)), sha, runId).Ok?
      <==>
      && IsSha(sha) && runId > 0 && IsGreen(server, runId, sha, attempt)
      && HasTheFour(server, OneAttempt(runId, attempt), attempt, sha)
  {
    AllEvidenceIff(server, jobs, times, OneAttempt(runId, attempt), attempt, sha);
  }

  // ----- The authoritative run of main ----------------------------------------

  datatype MainReplies = MainReplies(
    before: Option<string>, runs: seq<Page<Run>>, jobs: seq<Page<Job>>, again: seq<Page<Run>>, after: Option<string>)

  function Observe(replies: MainReplies, sha: string, runId: int): Result<seq<Job>, Malformed> {
    if !IsSha(sha) || runId <= 0 || replies.before != Some(sha) then Err(Malformed)
    else
      var selected :- SelectRun(replies.runs, sha);
      if selected.None? || selected.value.id != Some(runId) || selected.value.branch != Some("main")
         || Classify(selected.value, replies.jobs, sha) != Ok(Pass)
      then Err(Malformed)
      else
        var jobs :- Pages(replies.jobs, JOB_ID);
        var chosen :- RequireRuntimeJobs(selected.value, jobs, sha);
        var latest :- SelectRun(replies.again, sha);
        if latest.Some? && latest.value.id == Some(runId) && latest.value.attempt == selected.value.attempt
           && replies.after == Some(sha)
        then Ok(chosen) else Err(Malformed)
  }

  lemma ObserveAccepted(replies: MainReplies, sha: string, runId: int) returns (run: Run, latest: Run)
    requires Observe(replies, sha, runId).Ok?
    ensures replies.before == Some(sha) == replies.after
    ensures SelectRun(replies.runs, sha) == Ok(Some(run)) && SelectRun(replies.again, sha) == Ok(Some(latest))
    ensures run.id == latest.id == Some(runId) && latest.attempt == run.attempt && run.attempt.Some?
    ensures run.branch == Some("main")
    ensures Pages(replies.jobs, JOB_ID).Ok?
    ensures RequireRuntimeJobs(run, Pages(replies.jobs, JOB_ID).value, sha) == Observe(replies, sha, runId)
  {
    run := SelectRun(replies.runs, sha).value.value;
    latest := SelectRun(replies.again, sha).value.value;
  }

  lemma RunOfMainWasServed(h: History, sha: string, runId: int, runs: seq<Page<Run>>, times: seq<nat>, run: Run)
    returns (read: nat)
    requires RunsOnlyGrow(h) && AreRunsOf(runs, times, h, sha) && SelectRun(runs, sha) == Ok(Some(run))
    requires run.id == Some(runId) && run.branch == Some("main")
    ensures read in times && IsOfMain(h(read), runId)
  {
    var k, i := ItemIsOnAPage(runs, run);
    read := times[k];
    assert RunWasServed(run, read, h);
  }

  /** When the run of main is accepted, main named the commit at both ends, and
      throughout the reading of the jobs the run was the newest push run of the
      commit on one attempt, whose four jobs are the evidence; the run is one of main's. */
  lemma ObserveIsSound(
      h: History, sha: string, runId: int, replies: MainReplies, before: nat, spans: Spans, after: nat, at: nat)
    returns (attempt: int)
    requires OnlyGrows(h) && spans.InOrder()
    requires replies.before == Some(h(before).main) && replies.after == Some(h(after).main)
    requires AreRunsOf(replies.runs, spans.first, h, sha) && AreRunsOf(replies.again, spans.again, h, sha)
    requires AreJobsOf(replies.jobs, spans.jobs, h, AllAttempts(runId))
    requires spans.jobs != [] && spans.jobs[0] <= at <= spans.jobs[|spans.jobs| - 1]
    requires Observe(replies, sha, runId).Ok?
    ensures IsSha(sha) && h(before).main == sha == h(after).main
    ensures exists read: nat :: read in spans.first && IsOfMain(h(read), runId)
    ensures IsCurrentRun(h, at, sha, runId, attempt)
    ensures IsEvidence(h, at, spans.jobs, AllAttempts(runId), attempt, sha, Observe(replies, sha, runId).value)
  {
    var run, latest := ObserveAccepted(replies, sha, runId);
    attempt := run.attempt.value;
    JobsBetweenRuns(spans, at);
    var read := RunOfMainWasServed(h, sha, runId, replies.runs, spans.first, run);
    NothingChangedBetween(h, sha, replies.runs, spans.first, replies.again, spans.again, run, latest, at);
    RuntimeJobsAreEvidence(h, replies.jobs, spans.jobs, AllAttempts(runId), run, sha, at);
  }

  predicate IsOfMain(server: Server, runId: int) {
    runId in server.runs && server.runs[runId].branch == Some("main")
  }

  /** The newest run of the commit on a server that stands still. */
  ghost predicate IsNewest(server: Server, sha: string, id: int) {
    id in PushRuns(server, sha) && forall other :: other in PushRuns(server, sha) ==> other <= id
  }

  lemma ReadRunIsThere(server: Server, sha: string, data: seq<Page<Run>>, times: seq<nat>, run: Run)
    requires AreRunsOf(data, times, (t: nat) => server, sha) && Pages(data, RUN_ID).Ok?
    requires run in Pages(data, RUN_ID).value
    ensures run.id.Some? && run.id.value in ListedRuns(server, sha)
    ensures run.id.value in server.runs && server.runs[run.id.value] == run
  {
    var k, i := ItemIsOnAPage(data, run);
    assert RunWasServed(run, times[k], (t: nat) => server);
    assert RUN_ID(run).value in ListedRuns(server, sha);
  }

  /** Of a server that stands still, the selected run is the newest. */
  lemma SelectedOfSteady(server: Server, sha: string, data: seq<Page<Run>>, times: seq<nat>, id: int)
    requires AreRunsOf(data, times, (t: nat) => server, sha) && Pages(data, RUN_ID).Ok?
    requires HidesNothing(server)
    ensures SelectRun(data, sha).Ok?
    ensures var selected := SelectRun(data, sha).value;
      && (selected.Some? && selected.value.id == Some(id) <==> IsNewest(server, sha, id))
      && (IsNewest(server, sha, id) ==> selected.value == server.runs[id])
  {
    var h: History := (t: nat) => server;
    var runs := Pages(data, RUN_ID).value;
    AcceptedPagesAreComplete(data, RUN_ID, times, (t: nat) => ListedRuns(h(t), sha), times[0]);
    assert Ids(runs, RUN_ID) == ListedRuns(server, sha);
    if id in PushRuns(server, sha) {
      assert id in ListedRuns(server, sha);
      var n :| 0 <= n < |runs| && RUN_ID(runs[n]) == Some(id);
      ReadRunIsThere(server, sha, data, times, runs[n]);
      MatchIff(runs[n], sha);
    }
    var selected := SelectRun(data, sha).value;
    if selected.Some? {
      ReadRunIsThere(server, sha, data, times, selected.value);
      MatchIff(selected.value, sha);
      assert selected.value.id.value in PushRuns(server, sha);
      SteadySelectedIsGreatest(server, sha, data, times, selected.value);
    }
  }

  lemma SteadySelectedIsGreatest(server: Server, sha: string, data: seq<Page<Run>>, times: seq<nat>, run: Run)
    requires AreRunsOf(data, times, (t: nat) => server, sha) && SelectRun(data, sha) == Ok(Some(run))
    requires HidesNothing(server)
    ensures run.id.Some? && forall other :: other in PushRuns(server, sha) ==> other <= run.id.value
  {
    var h: History := (t: nat) => server;
    ReadRunIsThere(server, sha, data, times, run);
    assert times != [] && RunsOnlyGrow(h);
    forall other | other in PushRuns(server, sha)
      ensures other <= run.id.value
    {
      SelectedIsGreatest(h, sha, data, times, run, other);
    }
  }

  /** Of a server that stands still, the run of main is accepted if and only if main names
      the commit, this is its newest push run, one of main's, its jobs can be judged, and
      each of the four names has exactly one job in its attempt, a success. */
  lemma ObserveIff(
      server: Server, sha: string, runId: int, runs: seq<Page<Run>>, first: seq<nat>, jobs: seq<Page<Job>>,
      times: seq<nat>, again: seq<Page<Run>>, second: seq<nat>)
    requires HidesNothing(server)
    requires AreRunsOf(runs, first, (t: nat) => server, sha) && Pages(runs, RUN_ID).Ok?
    requires AreRunsOf(again, second, (t: nat) => server, sha) && Pages(again, RUN_ID).Ok?
    requires AreJobsOf(jobs, times, (t: nat) => server, AllAttempts(runId)) && Pages(jobs, JOB_ID).Ok?
    ensures Observe(MainReplies(Some(server.main), runs, jobs, again, Some(server.main)), sha, runId).Ok?
      <==>
      && IsSha(sha) && runId > 0 && server.main == sha
      && IsNewest(server, sha, runId) && IsOfMain(server, runId) && IsJudged(server.runs[runId], jobs, sha)
      && HasTheFour(server, AllAttempts(runId), server.runs[runId].attempt.value, sha)
  {
    SelectedOfSteady(server, sha, runs, first, runId);
    SelectedOfSteady(server, sha, again, second, runId);
    if IsNewest(server, sha, runId) {
      PassWithEvidence(server.runs[runId], jobs, sha);
      if server.runs[runId].attempt.Some? {
        AllEvidenceIff(server, jobs, times, AllAttempts(runId), server.runs[runId].attempt.value, sha);
      }
    }
  }

  lemma PassWithEvidence(run: Run, data: seq<Page<Job>>, sha: string)
    requires Pages(data, JOB_ID).Ok? && run.sha == Some(sha)
    ensures Classify(run, data, sha) == Ok(Pass) && RequireRuntimeJobs(run, Pages(data, JOB_ID).value, sha).Ok? <==>
      IsSha(sha) && IsJudged(run, data, sha) && AllEvidence(Pages(data, JOB_ID).value, run.attempt.value, sha)
  {
    ClassifyIff(run, data, sha);
    if IsJudged(run, data, sha) && AllEvidence(Pages(data, JOB_ID).value, run.attempt.value, sha) {
      EvidencePasses(run, data, sha);
    }
  }

  /** The four jobs hold the one that the verdict asks for. */
  lemma EvidencePasses(run: Run, data: seq<Page<Job>>, sha: string)
    requires IsJudged(run, data, sha) && AllEvidence(Pages(data, JOB_ID).value, run.attempt.value, sha)
    ensures Classify(run, data, sha) == Ok(Pass)
  {
    var jobs := Pages(data, JOB_ID).value;
    assert JOB_NAMES[0] == REQUIRED && IsRuntimeEvidence(jobs, JOB_NAMES[0], run.attempt.value, sha);
    var named := Named(jobs, REQUIRED, run.attempt.value);
    assert named[0] in named;
    ClassifyIff(run, data, sha);
  }
}
