/** The workflow records of the main validation proof: what generation emits and what verification accepts. */
module WorkflowProof {
  import opened Prelude
  import opened Ordering
  import opened JsonValue

  datatype Policy = Policy(path: string, required: set<string>, allowedSkipped: set<string>, generation: Option<string>)

  /** `isTimestamp`: an ISO-8601 timestamp with a timezone. */
  datatype Formats = Formats(isTimestamp: string -> bool)

  const STORED_FIELDS: set<string> := {
    "workflow_id", "run_id", "run_attempt", "name", "path", "event", "status", "conclusion", "created_at", "updated_at",
    "html_url", "required_jobs", "allowed_skipped_jobs", "generation_job"}
  const JOB_FIELDS: set<string> := {
    "id", "run_attempt", "name", "head_sha", "status", "conclusion", "started_at", "completed_at", "html_url"}

  predicate IsTimestamp(fmt: Formats, j: Json) { IsText(j) && fmt.isTimestamp(j.s) }

  // ----- One job of the API response

  /** `_validate_job` accepts. */
  predicate JobOk(fmt: Formats, j: Json, runId: int, commit: string) {
    && j.JObject?
    && (var m := j.members;
        && IsText(Get(m, "name")) && Get(m, "run_id") == JInt(runId) && runId > 0
        && IsHexText(Get(m, "head_sha"), 40) && Get(m, "head_sha") == JString(commit)
        && IsText(Get(m, "status")) && (Get(m, "conclusion").JNull? || IsText(Get(m, "conclusion")))
        && IsTimestamp(fmt, Get(m, "started_at"))
        && (Get(m, "completed_at").JNull? || IsTimestamp(fmt, Get(m, "completed_at")))
        && IsPositive(Get(m, "id")) && IsPositive(Get(m, "run_attempt")) && IsText(Get(m, "html_url")))
  }

  /** The part of a job the proof keeps. */
  datatype Job = Job(id: int, attempt: int, name: string, headSha: string, status: string, conclusion: Json,
                     startedAt: Json, completedAt: Json, url: Json)

  function JobOf(j: Json): Job
    requires j.JObject? && Get(j.members, "id").JInt? && Get(j.members, "run_attempt").JInt?
    requires Get(j.members, "name").JString? && Get(j.members, "head_sha").JString? && Get(j.members, "status").JString?
  {
    var m := j.members;
    Job(Get(m, "id").n, Get(m, "run_attempt").n, Get(m, "name").s, Get(m, "head_sha").s, Get(m, "status").s,
        Get(m, "conclusion"), Get(m, "started_at"), Get(m, "completed_at"), Get(m, "html_url"))
  }

  /** What every kept job satisfies. */
  predicate KeptJobOk(fmt: Formats, job: Job, commit: string) {
    && job.id > 0 && job.attempt > 0 && job.name != [] && job.headSha == commit && job.status != []
    && (job.conclusion.JNull? || IsText(job.conclusion)) && IsTimestamp(fmt, job.startedAt)
    && (job.completedAt.JNull? || IsTimestamp(fmt, job.completedAt)) && IsText(job.url)
  }

  method ValidateJob(fmt: Formats, j: Json, runId: int, commit: string) returns (r: Result<Job>)
    ensures r.Ok? <==> JobOk(fmt, j, runId, commit)
    ensures r.Ok? ==> r.value == JobOf(j) && KeptJobOk(fmt, r.value, commit)
  {
    if !j.JObject? { return Err; }
    var m := j.members;
    if !IsText(Get(m, "name")) || !IsPositive(Get(m, "run_id")) || Get(m, "run_id").n != runId { return Err; }
    if !IsHexText(Get(m, "head_sha"), 40) || Get(m, "head_sha").s != commit || !IsText(Get(m, "status")) { return Err; }
    if !(Get(m, "conclusion").JNull? || IsText(Get(m, "conclusion")))
      || !IsTimestamp(fmt, Get(m, "started_at")) { return Err; }
    if !(Get(m, "completed_at").JNull? || IsTimestamp(fmt, Get(m, "completed_at"))) { return Err; }
    if !IsPositive(Get(m, "id")) || !IsPositive(Get(m, "run_attempt")) || !IsText(Get(m, "html_url")) { return Err; }
    return Ok(JobOf(j));
  }

  // ----- Collecting and selecting jobs

  type Identity = (string, int)

  type Jobs = map<Identity, Job>

  /** A job's name and attempt, by which the responses are keyed. */
  function IdOf(j: Json): Identity {
    if IsRecord(j) then (JobOf(j).name, JobOf(j).attempt) else ("", 0)
  }

  /** Every job of the response is valid, from no later attempt than the run, and listed once per attempt. */
  ghost predicate JobsOk(fmt: Formats, items: seq<Json>, runId: int, runAttempt: int, commit: string) {
    && (forall i | 0 <= i < |items| :: JobOk(fmt, items[i], runId, commit) && JobOf(items[i]).attempt <= runAttempt)
    && forall i, k | 0 <= i < k < |items| :: IdOf(items[i]) != IdOf(items[k])
  }

  /** `jobs` is the response keyed by name and attempt. */
  ghost predicate Keyed(items: seq<Json>, jobs: Jobs, fmt: Formats, runAttempt: int, commit: string) {
    && (forall id | id in jobs ::
          id == (jobs[id].name, jobs[id].attempt) && KeptJobOk(fmt, jobs[id], commit) && jobs[id].attempt <= runAttempt)
    && (forall id | id in jobs :: IsJobOf(items, jobs[id]))
    && (forall i | 0 <= i < |items| && IsRecord(items[i]) :: IdOf(items[i]) in jobs)
  }

  predicate IsRecord(j: Json) {
    && j.JObject? && Get(j.members, "id").JInt? && Get(j.members, "run_attempt").JInt?
    && Get(j.members, "name").JString? && Get(j.members, "head_sha").JString? && Get(j.members, "status").JString?
  }

  ghost predicate IsJobOf(items: seq<Json>, job: Job) {
    exists i | 0 <= i < |items| :: IsRecord(items[i]) && JobOf(items[i]) == job
  }

  method CollectJobs(fmt: Formats, items: seq<Json>, runId: int, runAttempt: int, commit: string)
    returns (r: Result<Jobs>)
    ensures r.Ok? <==> JobsOk(fmt, items, runId, runAttempt, commit)
    ensures r.Ok? ==> Keyed(items, r.value, fmt, runAttempt, commit)
  {
    var jobs: Jobs := map[];
    for i := 0 to |items|
      invariant JobsOk(fmt, items[..i], runId, runAttempt, commit) && Keyed(items[..i], jobs, fmt, runAttempt, commit)
    {
      var validated := ValidateJob(fmt, items[i], runId, commit);
      assert JobsOk(fmt, items, runId, runAttempt, commit) ==> JobOk(fmt, items[i], runId, commit);
      if validated.Err? { return Err; }
      var job := validated.value;
      if job.attempt > runAttempt { return Err; }
      var id := (job.name, job.attempt);
      if id in jobs {
        DuplicateJob(items, i, jobs[id]);
        return Err;
      }
      AddJob(fmt, items, i, jobs, runId, runAttempt, commit);
      jobs := jobs[id := job];
    }
    assert items[..|items|] == items;
    return Ok(jobs);
  }

  lemma AddJob(fmt: Formats, items: seq<Json>, i: nat, jobs: Jobs, runId: int, runAttempt: int, commit: string)
    requires i < |items| && JobOk(fmt, items[i], runId, commit) && JobOf(items[i]).attempt <= runAttempt
    requires JobsOk(fmt, items[..i], runId, runAttempt, commit) && Keyed(items[..i], jobs, fmt, runAttempt, commit)
    requires IdOf(items[i]) !in jobs
    ensures JobsOk(fmt, items[..i + 1], runId, runAttempt, commit)
    ensures Keyed(items[..i + 1], jobs[IdOf(items[i]) := JobOf(items[i])], fmt, runAttempt, commit)
  {
    var before := items[..i];
    forall k | 0 <= k < i ensures IdOf(before[k]) != IdOf(items[i]) {
      assert JobOk(fmt, before[k], runId, commit);
    }
    AddOk(fmt, before, items[i], runId, runAttempt, commit);
    AddKeyed(fmt, before, items[i], jobs, runAttempt, commit);
    assert items[..i + 1] == before + [items[i]];
  }

  lemma AddOk(fmt: Formats, before: seq<Json>, j: Json, runId: int, runAttempt: int, commit: string)
    requires JobsOk(fmt, before, runId, runAttempt, commit) && JobOk(fmt, j, runId, commit)
             && JobOf(j).attempt <= runAttempt
    requires forall k | 0 <= k < |before| :: IdOf(before[k]) != IdOf(j)
    ensures JobsOk(fmt, before + [j], runId, runAttempt, commit)
  {
    var after := before + [j];
    forall i | 0 <= i < |after| ensures JobOk(fmt, after[i], runId, commit) && JobOf(after[i]).attempt <= runAttempt {
      if i < |before| { assert JobOk(fmt, before[i], runId, commit); }
    }
  }

  lemma DuplicateJob(items: seq<Json>, i: nat, job: Job)
    requires i < |items| && IsJobOf(items[..i], job) && IdOf(items[i]) == (job.name, job.attempt)
    ensures exists k | 0 <= k < i :: IdOf(items[k]) == IdOf(items[i])
  {}

  lemma AddKeyed(fmt: Formats, before: seq<Json>, j: Json, jobs: Jobs, runAttempt: int, commit: string)
    requires Keyed(before, jobs, fmt, runAttempt, commit) && IsRecord(j) && IdOf(j) !in jobs
    requires KeptJobOk(fmt, JobOf(j), commit) && JobOf(j).attempt <= runAttempt
    ensures Keyed(before + [j], jobs[IdOf(j) := JobOf(j)], fmt, runAttempt, commit)
  {
    var more := jobs[IdOf(j) := JobOf(j)];
    forall id | id in more ensures IsJobOf(before + [j], more[id]) {
      if id in jobs {
        JobStays(before, j, jobs[id]);
      } else {
        assert (before + [j])[|before|] == j;
      }
    }
  }

  lemma JobStays(before: seq<Json>, j: Json, job: Job)
    requires IsJobOf(before, job)
    ensures IsJobOf(before + [j], job)
  {
    var k :| 0 <= k < |before| && IsRecord(before[k]) && JobOf(before[k]) == job;
    assert (before + [j])[k] == before[k];
  }

  function ExpectedAttempt(attempts: map<string, int>, name: string, runAttempt: int): int {
    if name in attempts then attempts[name] else runAttempt
  }

  ghost function Available(jobs: Jobs): set<string> { set id | id in jobs :: id.0 }

  /** Each named job that ran at all is taken from exactly one attempt: its producer's, or else the run's. */
  method SelectJobs(jobs: Jobs, names: set<string>, attempts: map<string, int>, runAttempt: int)
    returns (r: Result<map<string, Job>>)
    requires forall id | id in jobs :: id == (jobs[id].name, jobs[id].attempt)
    ensures r.Ok? <==> forall name | name in names && name in Available(jobs) ::
                         (name, ExpectedAttempt(attempts, name, runAttempt)) in jobs
    ensures r.Ok? ==>
      && r.value.Keys == names * Available(jobs)
      && forall name | name in r.value :: r.value[name] == jobs[(name, ExpectedAttempt(attempts, name, runAttempt))]
  {
    var selected: map<string, Job>, rest := map[], names;
    while rest != {}
      invariant rest <= names && selected.Keys == (names - rest) * Available(jobs)
      invariant forall name | name in selected ::
                  (name, ExpectedAttempt(attempts, name, runAttempt)) in jobs
                  && selected[name] == jobs[(name, ExpectedAttempt(attempts, name, runAttempt))]
      decreases |rest|
    {
      var name :| name in rest;
      rest := rest - {name};
      var candidates := set id | id in jobs && id.0 == name;
      assert forall id | id in jobs && id.0 == name :: id in candidates;
      if candidates == {} {
        assert name !in Available(jobs);
        continue;
      }
      assert name in Available(jobs);
      var expected := ExpectedAttempt(attempts, name, runAttempt);
      var matches := set id | id in candidates && jobs[id].attempt == expected;
      assert matches <= {(name, expected)};
      assert (name, expected) in jobs ==> matches == {(name, expected)};
      if |matches| != 1 { return Err; }
      assert matches == {(name, expected)} by { OnlyMember(matches, (name, expected)); }
      selected := selected[name := jobs[(name, expected)]];
    }
    return Ok(selected);
  }

  predicate Finished(job: Job, conclusion: string) {
    job.status == "completed" && job.conclusion == JString(conclusion) && !job.completedAt.JNull?
  }

  predicate ResultOk(policy: Policy, name: string, job: Job) {
    && (name in policy.required ==> Finished(job, "success"))
    && (name in policy.allowedSkipped ==> Finished(job, "skipped"))
    && (policy.generation == Some(name) ==>
          job.status == "in_progress" && job.conclusion.JNull? && job.completedAt.JNull?)
  }

  function WantedNames(policy: Policy): set<string> {
    policy.required + if policy.generation.Some? then {policy.generation.value} else {}
  }

  // ----- The run

  function RunStatus(policy: Policy): string { if policy.generation.Some? then "in_progress" else "completed" }

  function RunConclusion(policy: Policy): Json { if policy.generation.Some? then JNull else JString("success") }

  datatype Target = Target(repository: string, branch: string, commit: string, tree: string)

  function Sub(m: Members, key: string): Members { MembersOf(Get(m, key)) }

  predicate RunNumbersOk(fmt: Formats, run: Members) {
    && IsPositive(Get(run, "id")) && IsPositive(Get(run, "run_attempt")) && IsPositive(Get(run, "workflow_id"))
    && IsTimestamp(fmt, Get(run, "created_at")) && IsTimestamp(fmt, Get(run, "updated_at"))
    && IsText(Get(run, "html_url"))
  }

  predicate RunResultOk(run: Members, workflow: string, policy: Policy) {
    && IsText(Get(run, "name")) && Get(run, "name").s == workflow
    && IsText(Get(run, "path")) && Get(run, "path").s == policy.path
    && Get(run, "event") == JString("push") && Get(run, "status") == JString(RunStatus(policy))
    && Get(run, "conclusion") == RunConclusion(policy)
  }

  predicate RunTargetOk(run: Members, target: Target) {
    && Get(run, "repository").JObject? && Get(run, "head_commit").JObject?
    && IsText(Get(run, "head_branch")) && Get(run, "head_branch").s == target.branch
    && IsHexText(Get(run, "head_sha"), 40) && Get(run, "head_sha").s == target.commit
    && IsHexText(Get(Sub(run, "head_commit"), "tree_id"), 40)
    && Get(Sub(run, "head_commit"), "tree_id").s == target.tree
    && IsText(Get(Sub(run, "repository"), "full_name"))
    && Get(Sub(run, "repository"), "full_name").s == target.repository
  }

  predicate RunOk(fmt: Formats, run: Members, workflow: string, policy: Policy, target: Target) {
    RunNumbersOk(fmt, run) && RunResultOk(run, workflow, policy) && RunTargetOk(run, target)
  }

  // ----- The emitted record

  function JobJson(job: Job): Json {
    JObject(map["id" := JInt(job.id), "run_attempt" := JInt(job.attempt), "name" := JString(job.name),
                "head_sha" := JString(job.headSha), "status" := JString(job.status), "conclusion" := job.conclusion,
                "started_at" := job.startedAt, "completed_at" := job.completedAt, "html_url" := job.url])
  }

  function JobList(selected: map<string, Job>, names: seq<string>): seq<Json> {
    if names == [] then []
    else
      var n := |names| - 1;
      JobList(selected, names[..n]) + if names[n] in selected then [JobJson(selected[names[n]])] else []
  }

  function Record(workflow: string, policy: Policy, run: Members, selected: map<string, Job>): Json {
    JObject(map[
      "workflow_id" := Get(run, "workflow_id"), "run_id" := Get(run, "id"), "run_attempt" := Get(run, "run_attempt"),
      "name" := JString(workflow), "path" := JString(policy.path), "event" := JString("push"),
      "status" := JString(RunStatus(policy)), "conclusion" := RunConclusion(policy),
      "created_at" := Get(run, "created_at"), "updated_at" := Get(run, "updated_at"),
      "html_url" := Get(run, "html_url"),
      "required_jobs" := JArray(JobList(selected, SortedSet(policy.required))),
      "allowed_skipped_jobs" := JArray(JobList(selected, SortedSet(policy.allowedSkipped))),
      "generation_job" := if policy.generation.Some? && policy.generation.value in selected
                          then JobJson(selected[policy.generation.value]) else JNull])
  }

  // ----- The stored record

  predicate StoredJobOk(fmt: Formats, j: Json, name: string, commit: string, conclusion: Json, status: string) {
    && j.JObject? && HasExactly(j.members, JOB_FIELDS)
    && IsPositive(j.members["id"]) && IsPositive(j.members["run_attempt"])
    && j.members["name"] == JString(name) && j.members["head_sha"] == JString(commit)
    && j.members["status"] == JString(status) && j.members["conclusion"] == conclusion
    && IsTimestamp(fmt, j.members["started_at"])
    && (if status == "completed" then IsTimestamp(fmt, j.members["completed_at"]) else j.members["completed_at"].JNull?)
    && IsText(j.members["html_url"])
  }

  function StoredName(j: Json): string {
    if j.JObject? && Get(j.members, "name").JString? then Get(j.members, "name").s else ""
  }

  function StoredNames(items: seq<Json>): seq<string> {
    seq(|items|, i requires 0 <= i < |items| => StoredName(items[i]))
  }

  predicate StoredListOk(fmt: Formats, items: seq<Json>, commit: string, conclusion: string, runAttempt: int) {
    forall i | 0 <= i < |items| ::
      && StoredName(items[i]) != ""
      && StoredJobOk(fmt, items[i], StoredName(items[i]), commit, JString(conclusion), "completed")
      && items[i].members["run_attempt"].n <= runAttempt
  }

  predicate StoredRunOk(fmt: Formats, m: Members, workflow: string, policy: Policy)
  {
    && m.Keys == STORED_FIELDS
    && Get(m, "name") == JString(workflow) && Get(m, "path") == JString(policy.path)
    && Get(m, "event") == JString("push")
    && Get(m, "status") == JString(RunStatus(policy)) && Get(m, "conclusion") == RunConclusion(policy)
    && IsPositive(Get(m, "workflow_id")) && IsPositive(Get(m, "run_id")) && IsPositive(Get(m, "run_attempt"))
    && IsTimestamp(fmt, Get(m, "created_at")) && IsTimestamp(fmt, Get(m, "updated_at")) && IsText(Get(m, "html_url"))
  }

  /** `_validate_stored_workflow` accepts. */
  ghost predicate StoredOk(fmt: Formats, stored: Json, workflow: string, commit: string, policy: Policy) {
    && stored.JObject? && StoredRunOk(fmt, stored.members, workflow, policy)
    && (var m := stored.members; var attempt := Get(m, "run_attempt").n;
        && Get(m, "required_jobs").JArray? && Get(m, "allowed_skipped_jobs").JArray?
        && StoredListOk(fmt, Get(m, "required_jobs").items, commit, "success", attempt)
        && StoredNames(Get(m, "required_jobs").items) == SortedSet(policy.required)
        && StoredListOk(fmt, Get(m, "allowed_skipped_jobs").items, commit, "skipped", attempt)
        && Ascending(CodesOf, StoredNames(Get(m, "allowed_skipped_jobs").items))
        && (forall name | name in StoredNames(Get(m, "allowed_skipped_jobs").items) :: name in policy.allowedSkipped)
        && GenerationOk(fmt, Get(m, "generation_job"), commit, policy, attempt))
  }

  predicate GenerationOk(fmt: Formats, j: Json, commit: string, policy: Policy, attempt: int) {
    if policy.generation.None? then j.JNull?
    else
      && StoredJobOk(fmt, j, policy.generation.value, commit, JNull, "in_progress")
      && j.members["run_attempt"].n == attempt
  }

  method ValidateStoredList(fmt: Formats, items: seq<Json>, commit: string, conclusion: string, runAttempt: int)
    returns (r: Result<seq<string>>)
    ensures r.Ok? <==> StoredListOk(fmt, items, commit, conclusion, runAttempt)
    ensures r.Ok? ==> r.value == StoredNames(items)
  {
    var names := [];
    for i := 0 to |items|
      invariant names == StoredNames(items)[..i]
      invariant StoredListOk(fmt, items[..i], commit, conclusion, runAttempt)
    {
      var j := items[i];
      assert StoredNames(items)[i] == StoredName(j);
      if !j.JObject? || !IsText(Get(j.members, "name")) { return Err; }
      var name := Get(j.members, "name").s;
      if !StoredJobOk(fmt, j, name, commit, JString(conclusion), "completed") { return Err; }
      if j.members["run_attempt"].n > runAttempt { return Err; }
      names := names + [name];
      assert forall k | 0 <= k < i :: items[..i + 1][k] == items[..i][k];
    }
    assert items[..|items|] == items;
    return Ok(names);
  }

  method ValidateStoredWorkflow(fmt: Formats, stored: Json, workflow: string, commit: string, policy: Policy)
    returns (ok: bool)
    ensures ok <==> StoredOk(fmt, stored, workflow, commit, policy)
  {
    if !stored.JObject? || !StoredRunOk(fmt, stored.members, workflow, policy) { return false; }
    var m := stored.members;
    var attempt := Get(m, "run_attempt").n;
    if !Get(m, "required_jobs").JArray? || !Get(m, "allowed_skipped_jobs").JArray? { return false; }
    var required := ValidateStoredList(fmt, Get(m, "required_jobs").items, commit, "success", attempt);
    if required.Err? || required.value != SortedSet(policy.required) { return false; }
    var skipped := ValidateStoredList(fmt, Get(m, "allowed_skipped_jobs").items, commit, "skipped", attempt);
    if skipped.Err? { return false; }
    var names := set name | name in skipped.value;
    SortedNames(skipped.value);
    if skipped.value != SortedSet(names) || !(names <= policy.allowedSkipped) { return false; }
    return GenerationOk(fmt, Get(m, "generation_job"), commit, policy, attempt);
  }

  lemma SortedNames(names: seq<string>)
    ensures names == SortedSet(set name | name in names) <==> Ascending(CodesOf, names)
  {
    if Ascending(CodesOf, names) { AscendingUnique(CodesOf, names, SortedSet(set name | name in names)); }
  }

  // ----- Generation

  /** The shape the two API responses must have. */
  predicate EvidenceShapeOk(evidence: Json) {
    && evidence.JObject? && HasExactly(evidence.members, {"run", "jobs"})
    && evidence.members["run"].JObject? && evidence.members["jobs"].JObject?
    && (var response := evidence.members["jobs"].members;
        && HasExactly(response, {"total_count", "jobs"}) && response["jobs"].JArray?
        && response["total_count"] == JInt(|response["jobs"].items|))
  }

  function RunOf(evidence: Json): Members { Sub(MembersOf(evidence), "run") }

  function ItemsOf(evidence: Json): seq<Json> {
    var j := Get(Sub(MembersOf(evidence), "jobs"), "jobs");
    if j.JArray? then j.items else []
  }

  /** The run's jobs are the wanted ones, each with one job in its expected attempt and the required result. */
  ghost predicate JobSetOk(policy: Policy, jobs: Jobs, attempts: map<string, int>, runAttempt: int) {
    && WantedNames(policy) <= Available(jobs) <= WantedNames(policy) + policy.allowedSkipped
    && forall name | name in Available(jobs) ::
         var id := (name, ExpectedAttempt(attempts, name, runAttempt));
         id in jobs && ResultOk(policy, name, jobs[id])
  }

  /** The chosen jobs: for every available name, the one in its expected attempt. */
  ghost predicate Chosen(jobs: Jobs, attempts: map<string, int>, runAttempt: int, selected: map<string, Job>) {
    && selected.Keys == Available(jobs)
    && forall name | name in selected ::
         var id := (name, ExpectedAttempt(attempts, name, runAttempt));
         id in jobs && selected[name] == jobs[id]
  }

  method CheckResults(policy: Policy, selected: map<string, Job>) returns (ok: bool)
    ensures ok <==> forall name | name in selected :: ResultOk(policy, name, selected[name])
  {
    var rest := selected.Keys;
    while rest != {}
      invariant rest <= selected.Keys
      invariant forall name | name in selected && name !in rest :: ResultOk(policy, name, selected[name])
      decreases |rest|
    {
      var name :| name in rest;
      if !ResultOk(policy, name, selected[name]) { return false; }
      rest := rest - {name};
    }
    return true;
  }

  method ChooseJobs(policy: Policy, jobs: Jobs, attempts: map<string, int>, runAttempt: int)
    returns (r: Result<map<string, Job>>)
    requires forall id | id in jobs :: id == (jobs[id].name, jobs[id].attempt)
    ensures r.Ok? <==> JobSetOk(policy, jobs, attempts, runAttempt)
    ensures r.Ok? ==> Chosen(jobs, attempts, runAttempt, r.value)
  {
    var wanted := WantedNames(policy);
    var available := set id | id in jobs :: id.0;
    if !(wanted <= available) || !(available <= wanted + policy.allowedSkipped) { return Err; }
    var names := wanted + policy.allowedSkipped;
    assert names * available == available == Available(jobs);
    r := SelectJobs(jobs, names, attempts, runAttempt);
    if r.Err? { return Err; }
    var ok := CheckResults(policy, r.value);
    if !ok { return Err; }
  }

  ghost predicate EmittedFrom(fmt: Formats, response: Json, workflow: string, policy: Policy, target: Target,
                              attempts: map<string, int>, record: Json, jobs: Jobs, selected: map<string, Job>)
    requires RunOk(fmt, RunOf(response), workflow, policy, target)
  {
    var run := RunOf(response);
    var attempt := Get(run, "run_attempt").n;
    && Keyed(ItemsOf(response), jobs, fmt, attempt, target.commit)
    && JobSetOk(policy, jobs, attempts, attempt) && Chosen(jobs, attempts, attempt, selected)
    && record == Record(workflow, policy, run, selected)
  }

  /** `record` is what the API response of a workflow yields, each job taken from its expected attempt. */
  ghost predicate Emitted(fmt: Formats, response: Json, workflow: string, policy: Policy, target: Target,
                          attempts: map<string, int>, record: Json)
  {
    && EvidenceShapeOk(response) && RunOk(fmt, RunOf(response), workflow, policy, target)
    && JobsOk(fmt, ItemsOf(response), Get(RunOf(response), "id").n, Get(RunOf(response), "run_attempt").n,
              target.commit)
    && exists jobs, selected :: EmittedFrom(fmt, response, workflow, policy, target, attempts, record, jobs, selected)
  }

  lemma KeyedUnique(fmt: Formats, items: seq<Json>, runId: int, runAttempt: int, commit: string, a: Jobs, b: Jobs)
    requires JobsOk(fmt, items, runId, runAttempt, commit)
    requires Keyed(items, a, fmt, runAttempt, commit) && Keyed(items, b, fmt, runAttempt, commit)
    ensures a == b
  {
    KeyedWithin(fmt, items, runId, runAttempt, commit, a, b);
    KeyedWithin(fmt, items, runId, runAttempt, commit, b, a);
    WithinBoth(a, b);
  }

  ghost predicate Within(a: Jobs, b: Jobs) { forall id | id in a :: id in b && b[id] == a[id] }

  lemma WithinBoth(a: Jobs, b: Jobs)
    requires Within(a, b) && Within(b, a)
    ensures a == b
  {
    assert a.Keys == b.Keys;
  }

  lemma KeyedWithin(fmt: Formats, items: seq<Json>, runId: int, runAttempt: int, commit: string, a: Jobs, b: Jobs)
    requires JobsOk(fmt, items, runId, runAttempt, commit)
    requires Keyed(items, a, fmt, runAttempt, commit) && Keyed(items, b, fmt, runAttempt, commit)
    ensures Within(a, b)
  {
    forall id | id in a ensures id in b && b[id] == a[id] {
      KeyedSame(fmt, items, runId, runAttempt, commit, a, b, id);
    }
  }

  lemma KeyedSame(fmt: Formats, items: seq<Json>, runId: int, runAttempt: int, commit: string, a: Jobs, b: Jobs,
                  id: Identity)
    requires JobsOk(fmt, items, runId, runAttempt, commit) && id in a
    requires Keyed(items, a, fmt, runAttempt, commit) && Keyed(items, b, fmt, runAttempt, commit)
    ensures id in b && b[id] == a[id]
  {
    assert IsJobOf(items, a[id]);
    var i :| 0 <= i < |items| && IsRecord(items[i]) && JobOf(items[i]) == a[id];
    assert IdOf(items[i]) == id;
    assert IsJobOf(items, b[id]);
    var k :| 0 <= k < |items| && IsRecord(items[k]) && JobOf(items[k]) == b[id];
    assert IdOf(items[k]) == id;
    assert i == k;
  }

  /** The response and the attempts determine the record. */
  lemma EmittedUnique(fmt: Formats, response: Json, workflow: string, policy: Policy, target: Target,
                      attempts: map<string, int>, record: Json, record': Json)
    requires Emitted(fmt, response, workflow, policy, target, attempts, record)
    requires Emitted(fmt, response, workflow, policy, target, attempts, record')
    ensures record == record'
  {
    var run := RunOf(response);
    var attempt := Get(run, "run_attempt").n;
    var jobs, selected :| EmittedFrom(fmt, response, workflow, policy, target, attempts, record, jobs, selected);
    var jobs', selected' :| EmittedFrom(fmt, response, workflow, policy, target, attempts, record', jobs', selected');
    KeyedUnique(fmt, ItemsOf(response), Get(run, "id").n, attempt, target.commit, jobs, jobs');
    ChosenUnique(jobs, attempts, attempt, selected, selected');
  }

  lemma ChosenUnique(jobs: Jobs, attempts: map<string, int>, attempt: int, a: map<string, Job>, b: map<string, Job>)
    requires Chosen(jobs, attempts, attempt, a) && Chosen(jobs, attempts, attempt, b)
    ensures a == b
  {
    assert a.Keys == b.Keys;
  }

  /** The record, with the jobs it was assembled from. */
  method AssembleRecord(fmt: Formats, response: Json, workflow: string, policy: Policy, target: Target,
                        attempts: map<string, int>)
    returns (r: Result<Json>, ghost jobs: Jobs, ghost selected: map<string, Job>)
    ensures var run, items := RunOf(response), ItemsOf(response);
      if !EvidenceShapeOk(response) || !RunOk(fmt, run, workflow, policy, target)
         || !JobsOk(fmt, items, Get(run, "id").n, Get(run, "run_attempt").n, target.commit)
      then r.Err?
      else
        && Keyed(items, jobs, fmt, Get(run, "run_attempt").n, target.commit)
        && (r.Ok? <==> JobSetOk(policy, jobs, attempts, Get(run, "run_attempt").n))
        && (r.Ok? ==>
              && Chosen(jobs, attempts, Get(run, "run_attempt").n, selected)
              && r.value == Record(workflow, policy, run, selected))
  {
    jobs, selected := map[], map[];
    if !EvidenceShapeOk(response) { return Err, jobs, selected; }
    var run, items := RunOf(response), ItemsOf(response);
    if !RunOk(fmt, run, workflow, policy, target) { return Err, jobs, selected; }
    var runAttempt := Get(run, "run_attempt").n;
    var collected := CollectJobs(fmt, items, Get(run, "id").n, runAttempt, target.commit);
    if collected.Err? { return Err, jobs, selected; }
    jobs := collected.value;
    var chosen := ChooseJobs(policy, collected.value, attempts, runAttempt);
    if chosen.Err? { return Err, jobs, selected; }
    selected := chosen.value;
    return Ok(Record(workflow, policy, run, chosen.value)), jobs, selected;
  }

  /** Emits the record the responses yield, refused exactly when they yield none. */
  method BuildWorkflowProof(fmt: Formats, response: Json, workflow: string, policy: Policy, target: Target,
                            attempts: map<string, int>)
    returns (r: Result<Json>)
    ensures r.Ok? ==> Emitted(fmt, response, workflow, policy, target, attempts, r.value)
    ensures r.Err? ==> forall record :: !Emitted(fmt, response, workflow, policy, target, attempts, record)
  {
    ghost var jobs, selected;
    r, jobs, selected := AssembleRecord(fmt, response, workflow, policy, target, attempts);
    if r.Ok? {
      assert EmittedFrom(fmt, response, workflow, policy, target, attempts, r.value, jobs, selected);
    } else {
      forall record ensures !Emitted(fmt, response, workflow, policy, target, attempts, record) {
        if Emitted(fmt, response, workflow, policy, target, attempts, record) {
          var jobs', selected' :|
            EmittedFrom(fmt, response, workflow, policy, target, attempts, record, jobs', selected');
          var run := RunOf(response);
          KeyedUnique(fmt, ItemsOf(response), Get(run, "id").n, Get(run, "run_attempt").n, target.commit, jobs, jobs');
          assert false;
        }
      }
    }
  }

  // ----- What generation emits, verification accepts

  lemma JobJsonFields(job: Job)
    ensures var m := JobJson(job).members;
      && m.Keys == JOB_FIELDS
      && m["id"] == JInt(job.id) && m["run_attempt"] == JInt(job.attempt) && m["name"] == JString(job.name)
      && m["head_sha"] == JString(job.headSha) && m["status"] == JString(job.status)
      && m["conclusion"] == job.conclusion
      && m["started_at"] == job.startedAt && m["completed_at"] == job.completedAt && m["html_url"] == job.url
  {}

  lemma RecordKeys(workflow: string, policy: Policy, run: Members, selected: map<string, Job>)
    ensures Record(workflow, policy, run, selected).members.Keys == STORED_FIELDS
  {
    var keys := Record(workflow, policy, run, selected).members.Keys;
    assert forall key :: key in keys <==> key in STORED_FIELDS;
  }

  lemma RecordRun(workflow: string, policy: Policy, run: Members, selected: map<string, Job>)
    ensures var m := Record(workflow, policy, run, selected).members;
      && Get(m, "workflow_id") == Get(run, "workflow_id") && Get(m, "run_id") == Get(run, "id")
      && Get(m, "run_attempt") == Get(run, "run_attempt")
  {}

  lemma RecordStamps(workflow: string, policy: Policy, run: Members, selected: map<string, Job>)
    ensures var m := Record(workflow, policy, run, selected).members;
      && Get(m, "created_at") == Get(run, "created_at") && Get(m, "updated_at") == Get(run, "updated_at")
      && Get(m, "html_url") == Get(run, "html_url")
  {}

  lemma RecordScalars(workflow: string, policy: Policy, run: Members, selected: map<string, Job>)
    ensures var m := Record(workflow, policy, run, selected).members;
      && Get(m, "name") == JString(workflow) && Get(m, "path") == JString(policy.path)
      && Get(m, "event") == JString("push")
  {}

  lemma RecordResult(workflow: string, policy: Policy, run: Members, selected: map<string, Job>)
    ensures var m := Record(workflow, policy, run, selected).members;
      Get(m, "status") == JString(RunStatus(policy)) && Get(m, "conclusion") == RunConclusion(policy)
  {}

  lemma RecordJobs(workflow: string, policy: Policy, run: Members, selected: map<string, Job>)
    ensures var m := Record(workflow, policy, run, selected).members;
      && Get(m, "required_jobs") == JArray(JobList(selected, SortedSet(policy.required)))
      && Get(m, "allowed_skipped_jobs") == JArray(JobList(selected, SortedSet(policy.allowedSkipped)))
      && Get(m, "generation_job") == if policy.generation.Some? && policy.generation.value in selected
                                     then JobJson(selected[policy.generation.value]) else JNull
  {}

  function Present(selected: map<string, Job>, names: seq<string>): seq<string> {
    if names == [] then []
    else
      var n := |names| - 1;
      Present(selected, names[..n]) + if names[n] in selected then [names[n]] else []
  }

  lemma {:induction false} PresentAscending(selected: map<string, Job>, names: seq<string>)
    requires Ascending(CodesOf, names)
    ensures Ascending(CodesOf, Present(selected, names))
  {
    if names != [] {
      var n := |names| - 1;
      var before := Present(selected, names[..n]);
      PresentAscending(selected, names[..n]);
      PresentMembers(selected, names[..n]);
      forall i | 0 <= i < |before| ensures Less(CodesOf(before[i]), CodesOf(names[n])) {
        assert before[i] in names[..n];
      }
    }
  }

  lemma {:induction false} PresentMembers(selected: map<string, Job>, names: seq<string>)
    ensures forall name :: name in Present(selected, names) <==> name in names && name in selected
  {
    if names != [] {
      var n := |names| - 1;
      PresentMembers(selected, names[..n]);
      assert names == names[..n] + [names[n]];
    }
  }

  lemma {:induction false} AllPresent(selected: map<string, Job>, names: seq<string>)
    requires forall name | name in names :: name in selected
    ensures Present(selected, names) == names
  {
    if names != [] {
      var n := |names| - 1;
      AllPresent(selected, names[..n]);
      assert names == names[..n] + [names[n]];
    }
  }

  /** A finished, kept job is stored in the form the verifier expects. */
  lemma StoredJobAccepted(fmt: Formats, job: Job, commit: string, conclusion: string)
    requires KeptJobOk(fmt, job, commit) && Finished(job, conclusion)
    ensures StoredName(JobJson(job)) == job.name
    ensures StoredJobOk(fmt, JobJson(job), job.name, commit, JString(conclusion), "completed")
    ensures JobJson(job).members["run_attempt"] == JInt(job.attempt)
  {}

  lemma {:induction false} JobListAccepted(fmt: Formats, selected: map<string, Job>, names: seq<string>, commit: string,
                                           conclusion: string, runAttempt: int)
    requires forall name | name in names && name in selected ::
               && selected[name].name == name && KeptJobOk(fmt, selected[name], commit)
               && Finished(selected[name], conclusion) && selected[name].attempt <= runAttempt
    ensures StoredListOk(fmt, JobList(selected, names), commit, conclusion, runAttempt)
    ensures StoredNames(JobList(selected, names)) == Present(selected, names)
  {
    if names != [] {
      var n := |names| - 1;
      JobListAccepted(fmt, selected, names[..n], commit, conclusion, runAttempt);
      if names[n] in selected { StoredJobAccepted(fmt, selected[names[n]], commit, conclusion); }
    }
  }

  lemma SelectedKept(fmt: Formats, items: seq<Json>, jobs: Jobs, policy: Policy, attempts: map<string, int>,
                     runAttempt: int, commit: string, selected: map<string, Job>)
    requires Keyed(items, jobs, fmt, runAttempt, commit) && JobSetOk(policy, jobs, attempts, runAttempt)
    requires Chosen(jobs, attempts, runAttempt, selected)
    ensures forall name | name in selected ::
              && selected[name].name == name && KeptJobOk(fmt, selected[name], commit)
              && ResultOk(policy, name, selected[name])
              && selected[name].attempt == ExpectedAttempt(attempts, name, runAttempt) <= runAttempt
    ensures WantedNames(policy) <= selected.Keys
  {}

  lemma AssembledIsAccepted(fmt: Formats, items: seq<Json>, jobs: Jobs, run: Members, workflow: string, policy: Policy,
                            target: Target, attempts: map<string, int>, selected: map<string, Job>)
    requires RunOk(fmt, run, workflow, policy, target)
    requires Keyed(items, jobs, fmt, Get(run, "run_attempt").n, target.commit)
    requires JobSetOk(policy, jobs, attempts, Get(run, "run_attempt").n)
    requires Chosen(jobs, attempts, Get(run, "run_attempt").n, selected)
    ensures StoredOk(fmt, Record(workflow, policy, run, selected), workflow, target.commit, policy) <==>
            (policy.generation.Some? ==>
               ExpectedAttempt(attempts, policy.generation.value, Get(run, "run_attempt").n)
               == Get(run, "run_attempt").n)
  {
    var attempt := Get(run, "run_attempt").n;
    SelectedKept(fmt, items, jobs, policy, attempts, attempt, target.commit, selected);
    RecordKeys(workflow, policy, run, selected);
    RecordRun(workflow, policy, run, selected);
    RecordStamps(workflow, policy, run, selected);
    RecordScalars(workflow, policy, run, selected);
    RecordResult(workflow, policy, run, selected);
    RecordJobs(workflow, policy, run, selected);
    JobListAccepted(fmt, selected, SortedSet(policy.required), target.commit, "success", attempt);
    JobListAccepted(fmt, selected, SortedSet(policy.allowedSkipped), target.commit, "skipped", attempt);
    AllPresent(selected, SortedSet(policy.required));
    PresentAscending(selected, SortedSet(policy.allowedSkipped));
    PresentMembers(selected, SortedSet(policy.allowedSkipped));
    if policy.generation.Some? {
      GenerationStored(fmt, selected[policy.generation.value], target.commit, policy, attempt);
    }
    StoredParts(fmt, Record(workflow, policy, run, selected), workflow, target.commit, policy,
                JobList(selected, SortedSet(policy.required)), JobList(selected, SortedSet(policy.allowedSkipped)));
  }

  /** An emitted record is accepted by the verifier exactly when the proof job itself was taken from the run's own
      attempt, which holds whenever no evidence names that job as its producer. */
  lemma EmittedIsAccepted(fmt: Formats, response: Json, workflow: string, policy: Policy, target: Target,
                          attempts: map<string, int>, record: Json)
    requires Emitted(fmt, response, workflow, policy, target, attempts, record)
    ensures StoredOk(fmt, record, workflow, target.commit, policy) <==>
            (policy.generation.Some? ==>
               ExpectedAttempt(attempts, policy.generation.value, Get(RunOf(response), "run_attempt").n)
               == Get(RunOf(response), "run_attempt").n)
  {
    var jobs, selected :| EmittedFrom(fmt, response, workflow, policy, target, attempts, record, jobs, selected);
    AssembledIsAccepted(fmt, ItemsOf(response), jobs, RunOf(response), workflow, policy, target, attempts, selected);
  }

  /** With its scalars and both lists in order, a stored record is accepted exactly when its proof job is. */
  lemma StoredParts(fmt: Formats, stored: Json, workflow: string, commit: string, policy: Policy, required: seq<Json>,
                    skipped: seq<Json>)
    requires stored.JObject? && StoredRunOk(fmt, stored.members, workflow, policy)
    requires Get(stored.members, "required_jobs") == JArray(required)
             && Get(stored.members, "allowed_skipped_jobs") == JArray(skipped)
    requires StoredListOk(fmt, required, commit, "success", Get(stored.members, "run_attempt").n)
    requires StoredListOk(fmt, skipped, commit, "skipped", Get(stored.members, "run_attempt").n)
    requires StoredNames(required) == SortedSet(policy.required) && Ascending(CodesOf, StoredNames(skipped))
    requires forall name | name in StoredNames(skipped) :: name in policy.allowedSkipped
    ensures StoredOk(fmt, stored, workflow, commit, policy) <==>
            GenerationOk(fmt, Get(stored.members, "generation_job"), commit, policy,
                         Get(stored.members, "run_attempt").n)
  {}

  lemma GenerationStored(fmt: Formats, job: Job, commit: string, policy: Policy, attempt: int)
    requires policy.generation == Some(job.name) && KeptJobOk(fmt, job, commit) && ResultOk(policy, job.name, job)
    ensures GenerationOk(fmt, JobJson(job), commit, policy, attempt) <==> job.attempt == attempt
  {}

  // ----- Where an emitted record comes from

  /** What the record keeps of a job of the response: nine fields, null where the response has none. */
  function Restricted(job: Json): Json { JObject(map key | key in JOB_FIELDS :: Get(MembersOf(job), key)) }

  ghost predicate FromResponse(items: seq<Json>, job: Json) {
    exists i | 0 <= i < |items| :: job == Restricted(items[i])
  }

  lemma KeptFields(fmt: Formats, j: Json, runId: int, commit: string)
    requires JobOk(fmt, j, runId, commit)
    ensures JobJson(JobOf(j)) == Restricted(j)
  {
    var kept, whole := JobJson(JobOf(j)).members, Restricted(j).members;
    JobJsonFields(JobOf(j));
    assert kept.Keys == whole.Keys;
    forall key | key in kept ensures kept[key] == whole[key] { KeptField(fmt, j, runId, commit, key); }
  }

  lemma KeptField(fmt: Formats, j: Json, runId: int, commit: string, key: string)
    requires JobOk(fmt, j, runId, commit) && key in JOB_FIELDS
    ensures Get(JobJson(JobOf(j)).members, key) == Get(j.members, key)
  {
    JobJsonFields(JobOf(j));
  }

  lemma ChosenFromResponse(fmt: Formats, items: seq<Json>, jobs: Jobs, attempts: map<string, int>, runId: int,
                           runAttempt: int, commit: string, selected: map<string, Job>, name: string)
    requires JobsOk(fmt, items, runId, runAttempt, commit) && Keyed(items, jobs, fmt, runAttempt, commit)
    requires Chosen(jobs, attempts, runAttempt, selected) && name in selected
    ensures FromResponse(items, JobJson(selected[name]))
  {
    var id := (name, ExpectedAttempt(attempts, name, runAttempt));
    assert IsJobOf(items, jobs[id]);
    var i :| 0 <= i < |items| && IsRecord(items[i]) && JobOf(items[i]) == jobs[id];
    KeptFields(fmt, items[i], runId, commit);
  }

  lemma {:induction false} ListFromResponse(items: seq<Json>, selected: map<string, Job>, names: seq<string>)
    requires forall name | name in selected :: FromResponse(items, JobJson(selected[name]))
    ensures forall job | job in JobList(selected, names) :: FromResponse(items, job)
  {
    if names != [] { ListFromResponse(items, selected, names[..|names| - 1]); }
  }

  /** Every job an emitted record holds is one of the response's jobs, field by field. */
  lemma EmittedJobs(fmt: Formats, response: Json, workflow: string, policy: Policy, target: Target,
                    attempts: map<string, int>, record: Json)
    requires Emitted(fmt, response, workflow, policy, target, attempts, record)
    ensures var m, items := MembersOf(record), ItemsOf(response);
      && Get(m, "required_jobs").JArray? && Get(m, "allowed_skipped_jobs").JArray?
      && (forall job | job in Get(m, "required_jobs").items :: FromResponse(items, job))
      && (forall job | job in Get(m, "allowed_skipped_jobs").items :: FromResponse(items, job))
      && if policy.generation.None? then Get(m, "generation_job").JNull?
         else FromResponse(items, Get(m, "generation_job"))
  {
    var run, items := RunOf(response), ItemsOf(response);
    var id, attempt := Get(run, "id").n, Get(run, "run_attempt").n;
    var jobs, selected :| EmittedFrom(fmt, response, workflow, policy, target, attempts, record, jobs, selected);
    forall name | name in selected ensures FromResponse(items, JobJson(selected[name])) {
      ChosenFromResponse(fmt, items, jobs, attempts, id, attempt, target.commit, selected, name);
    }
    SelectedKept(fmt, items, jobs, policy, attempts, attempt, target.commit, selected);
    RecordJobs(workflow, policy, run, selected);
    ListFromResponse(items, selected, SortedSet(policy.required));
    ListFromResponse(items, selected, SortedSet(policy.allowedSkipped));
  }

  const RUN_FIELDS: set<string> := {
    "workflow_id", "run_attempt", "name", "path", "event", "status", "conclusion", "created_at", "updated_at",
    "html_url"}

  lemma RecordField(fmt: Formats, workflow: string, policy: Policy, target: Target, run: Members,
                    selected: map<string, Job>, key: string)
    requires RunOk(fmt, run, workflow, policy, target) && key in RUN_FIELDS
    ensures Get(Record(workflow, policy, run, selected).members, key) == Get(run, key)
  {
    RecordRun(workflow, policy, run, selected);
    RecordStamps(workflow, policy, run, selected);
    RecordScalars(workflow, policy, run, selected);
    RecordResult(workflow, policy, run, selected);
  }

  /** An emitted record repeats the run of the response, and that run is the target's: its commit, tree, branch and
      repository. */
  lemma EmittedRun(fmt: Formats, response: Json, workflow: string, policy: Policy, target: Target,
                   attempts: map<string, int>, record: Json)
    requires Emitted(fmt, response, workflow, policy, target, attempts, record)
    ensures var m, run := MembersOf(record), RunOf(response);
      && Get(m, "run_id") == Get(run, "id") && (forall key | key in RUN_FIELDS :: Get(m, key) == Get(run, key))
      && Get(m, "name") == JString(workflow) && Get(m, "event") == JString("push")
      && (policy.generation.Some? ==> Get(m, "status") == JString("in_progress") && Get(m, "conclusion").JNull?)
      && (policy.generation.None? ==>
            Get(m, "status") == JString("completed") && Get(m, "conclusion") == JString("success"))
      && Get(m, "created_at").JString? && fmt.isTimestamp(Get(m, "created_at").s)
      && Get(m, "updated_at").JString? && fmt.isTimestamp(Get(m, "updated_at").s)
      && Get(run, "head_sha") == JString(target.commit) && Get(run, "head_branch") == JString(target.branch)
      && Get(MembersOf(Get(run, "head_commit")), "tree_id") == JString(target.tree)
      && Get(MembersOf(Get(run, "repository")), "full_name") == JString(target.repository)
  {
    var run := RunOf(response);
    var jobs, selected :| EmittedFrom(fmt, response, workflow, policy, target, attempts, record, jobs, selected);
    RecordRun(workflow, policy, run, selected);
    RecordScalars(workflow, policy, run, selected);
    RecordResult(workflow, policy, run, selected);
    forall key | key in RUN_FIELDS ensures Get(MembersOf(record), key) == Get(run, key) {
      RecordField(fmt, workflow, policy, target, run, selected, key);
    }
  }

  /** The responses an emitted record comes from hold nothing but a run and all of its jobs, none of another run or
      commit, and none later than the run. */
  lemma EmittedResponse(fmt: Formats, response: Json, workflow: string, policy: Policy, target: Target,
                        attempts: map<string, int>, record: Json)
    requires Emitted(fmt, response, workflow, policy, target, attempts, record)
    ensures var run, items := RunOf(response), ItemsOf(response);
      && response == JObject(map["run" := JObject(run),
                                 "jobs" := JObject(map["total_count" := JInt(|items|), "jobs" := JArray(items)])])
      && forall i | 0 <= i < |items| ::
           var job := MembersOf(items[i]);
           && Get(job, "run_id") == Get(run, "id") && Get(job, "head_sha") == JString(target.commit)
           && Get(job, "run_attempt").JInt? && Get(run, "run_attempt").JInt?
           && Get(job, "run_attempt").n <= Get(run, "run_attempt").n
           && Get(job, "started_at").JString? && fmt.isTimestamp(Get(job, "started_at").s)
           && (Get(job, "completed_at").JString? ==> fmt.isTimestamp(Get(job, "completed_at").s))
  {
    ShapeOnly(response);
    var run, items := RunOf(response), ItemsOf(response);
    forall i | 0 <= i < |items| ensures JobOk(fmt, items[i], Get(run, "id").n, target.commit) {}
  }

  lemma ShapeOnly(response: Json)
    requires EvidenceShapeOk(response)
    ensures response == JObject(map["run" := JObject(RunOf(response)),
                                    "jobs" := JObject(map["total_count" := JInt(|ItemsOf(response)|),
                                                          "jobs" := JArray(ItemsOf(response))])])
  {
    var m := response.members;
    var jobs := m["jobs"].members;
    assert jobs == map["total_count" := JInt(|ItemsOf(response)|), "jobs" := JArray(ItemsOf(response))];
    assert m == map["run" := JObject(RunOf(response)), "jobs" := JObject(jobs)];
  }

  // ----- A record generation can emit and verification refuses

  function SampleRun(t: string): Members {
    map["id" := JInt(7), "run_attempt" := JInt(2), "workflow_id" := JInt(3), "name" := JString("w"),
        "path" := JString("p"), "event" := JString("push"), "status" := JString("in_progress"),
        "head_branch" := JString("main"), "head_sha" := JString(ZeroHex(40)),
        "head_commit" := JObject(map["tree_id" := JString(ZeroHex(40))]),
        "repository" := JObject(map["full_name" := JString("o/r")]),
        "created_at" := JString(t), "updated_at" := JString(t), "html_url" := JString("u")]
  }

  function SampleJob(t: string): Json {
    JObject(map["id" := JInt(11), "run_id" := JInt(7), "run_attempt" := JInt(1), "name" := JString("proof"),
                "head_sha" := JString(ZeroHex(40)), "status" := JString("in_progress"), "started_at" := JString(t),
                "html_url" := JString("u")])
  }

  const SAMPLE_POLICY := Policy("p", {}, {}, Some("proof"))
  function SampleTarget(): Target { Target("o/r", "main", ZeroHex(40), ZeroHex(40)) }

  lemma SampleNumbersOk(fmt: Formats, t: string)
    requires t != "" && fmt.isTimestamp(t)
    ensures RunNumbersOk(fmt, SampleRun(t)) && Get(SampleRun(t), "run_attempt") == JInt(2)
  {}

  lemma SampleResultOk(t: string)
    ensures RunResultOk(SampleRun(t), "w", SAMPLE_POLICY)
  {}

  lemma SampleTargetOk(t: string)
    ensures RunTargetOk(SampleRun(t), SampleTarget())
  {}

  lemma SampleJobOk(fmt: Formats, t: string)
    requires t != "" && fmt.isTimestamp(t)
    ensures JobOk(fmt, SampleJob(t), 7, ZeroHex(40))
    ensures JobOf(SampleJob(t)) ==
            Job(11, 1, "proof", ZeroHex(40), "in_progress", JNull, JString(t), JNull, JString("u"))
  {}

  function SampleResponse(t: string): Json {
    JObject(map["run" := JObject(SampleRun(t)),
                "jobs" := JObject(map["total_count" := JInt(1), "jobs" := JArray([SampleJob(t)])])])
  }

  lemma SampleShapeOk(t: string)
    ensures EvidenceShapeOk(SampleResponse(t)) && RunOf(SampleResponse(t)) == SampleRun(t)
            && ItemsOf(SampleResponse(t)) == [SampleJob(t)]
  {
    var response := SampleResponse(t).members;
    assert response.Keys == {"run", "jobs"};
    assert response["jobs"].members.Keys == {"total_count", "jobs"};
  }

  lemma SampleChosen(fmt: Formats, job: Job, attempts: map<string, int>)
    requires job.name == "proof" && job.attempt == 1 && job.status == "in_progress" && job.conclusion.JNull?
             && job.completedAt.JNull?
    requires attempts == map["proof" := 1]
    ensures var jobs: Jobs := map[("proof", 1) := job];
      JobSetOk(SAMPLE_POLICY, jobs, attempts, 2) && Chosen(jobs, attempts, 2, map["proof" := job])
  {
    var jobs: Jobs := map[("proof", 1) := job];
    assert Available(jobs) == {"proof"};
  }

  lemma SampleKeyed(fmt: Formats, t: string)
    requires t != "" && fmt.isTimestamp(t)
    ensures JobsOk(fmt, [SampleJob(t)], 7, 2, ZeroHex(40))
    ensures Keyed([SampleJob(t)], map[("proof", 1) := JobOf(SampleJob(t))], fmt, 2, ZeroHex(40))
  {
    SampleJobOk(fmt, t);
    assert IsRecord([SampleJob(t)][0]) && JobOf([SampleJob(t)][0]) == JobOf(SampleJob(t));
  }

  /** Responses of a run in attempt 2 whose proof job ran in attempt 1, with that attempt named as the job's. */
  lemma ForeignProofJobRefused(fmt: Formats, t: string) returns (record: Json)
    requires t != "" && fmt.isTimestamp(t)
    ensures Emitted(fmt, SampleResponse(t), "w", SAMPLE_POLICY, SampleTarget(), map["proof" := 1], record)
    ensures !StoredOk(fmt, record, "w", ZeroHex(40), SAMPLE_POLICY)
  {
    SampleShapeOk(t);
    SampleRunOk(fmt, t);
    SampleKeyed(fmt, t);
    SampleJobOk(fmt, t);
    var job := JobOf(SampleJob(t));
    SampleChosen(fmt, job, map["proof" := 1]);
    record := RefusedRecord(fmt, SampleResponse(t), "w", SAMPLE_POLICY, SampleTarget(), map["proof" := 1],
                            map[("proof", 1) := job], map["proof" := job]);
  }

  /** A proof job from another attempt than the run's: its record is emitted, and refused. */
  lemma RefusedRecord(fmt: Formats, response: Json, workflow: string, policy: Policy, target: Target,
                      attempts: map<string, int>, jobs: Jobs, selected: map<string, Job>) returns (record: Json)
    requires EvidenceShapeOk(response) && RunOk(fmt, RunOf(response), workflow, policy, target)
    requires var attempt := Get(RunOf(response), "run_attempt").n;
      && JobsOk(fmt, ItemsOf(response), Get(RunOf(response), "id").n, attempt, target.commit)
      && Keyed(ItemsOf(response), jobs, fmt, attempt, target.commit)
      && JobSetOk(policy, jobs, attempts, attempt) && Chosen(jobs, attempts, attempt, selected)
      && policy.generation.Some? && ExpectedAttempt(attempts, policy.generation.value, attempt) != attempt
    ensures Emitted(fmt, response, workflow, policy, target, attempts, record)
    ensures !StoredOk(fmt, record, workflow, target.commit, policy)
  {
    record := Record(workflow, policy, RunOf(response), selected);
    assert EmittedFrom(fmt, response, workflow, policy, target, attempts, record, jobs, selected);
    EmittedIsAccepted(fmt, response, workflow, policy, target, attempts, record);
  }

  lemma SampleRunOk(fmt: Formats, t: string)
    requires t != "" && fmt.isTimestamp(t)
    ensures RunOk(fmt, SampleRun(t), "w", SAMPLE_POLICY, SampleTarget())
    ensures Get(SampleRun(t), "id") == JInt(7) && Get(SampleRun(t), "run_attempt") == JInt(2)
  {
    SampleNumbersOk(fmt, t);
    SampleResultOk(t);
    SampleTargetOk(t);
  }
}
