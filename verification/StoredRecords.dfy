/** What the verifier of workflow records accepts: records in the form generation gives them, and no others. */
module StoredRecords {
  import opened Prelude
  import opened Ordering
  import opened JsonValue
  import opened WorkflowProof

  /** The stored jobs by their names. */
  function ByName(items: seq<Json>): map<string, Job> {
    if items == [] then map[]
    else
      var last := items[|items| - 1];
      var before := ByName(items[..|items| - 1]);
      if IsRecord(last) then before[StoredName(last) := JobOf(last)] else before
  }

  lemma ByNameOfMore(init: seq<Json>, last: Json)
    ensures ByName(init + [last]) ==
            if IsRecord(last) then ByName(init)[StoredName(last) := JobOf(last)] else ByName(init)
  {
    assert (init + [last])[..|init|] == init;
  }

  /** An accepted stored job is a job as generation writes it. */
  lemma StoredJobIsKept(fmt: Formats, j: Json, name: string, commit: string, conclusion: Json, status: string)
    requires StoredJobOk(fmt, j, name, commit, conclusion, status) && status != ""
    requires name != "" && (conclusion.JNull? || IsText(conclusion))
    ensures IsRecord(j) && StoredName(j) == name && JobOf(j).name == name
    ensures JobJson(JobOf(j)) == j
    ensures KeptJobOk(fmt, JobOf(j), commit) && JobOf(j).status == status && JobOf(j).conclusion == conclusion
    ensures JobOf(j).completedAt.JNull? <==> status != "completed"
    ensures j.members["run_attempt"] == JInt(JobOf(j).attempt)
  {
    JobJsonFields(JobOf(j));
    SameMembers(JobJson(JobOf(j)).members, j.members);
  }

  lemma ListPrefix(fmt: Formats, items: seq<Json>, commit: string, conclusion: string, attempt: int)
    requires StoredListOk(fmt, items, commit, conclusion, attempt) && items != []
    ensures StoredListOk(fmt, items[..|items| - 1], commit, conclusion, attempt)
    ensures StoredNames(items) == StoredNames(items[..|items| - 1]) + [StoredName(items[|items| - 1])]
  {
    var init := items[..|items| - 1];
    forall i | 0 <= i < |init| ensures init[i] == items[i] {}
  }

  /** What each stored job is, by name. */
  ghost predicate Filed(fmt: Formats, items: seq<Json>, jobs: map<string, Job>, commit: string, conclusion: string,
                        attempt: int)
  {
    && (forall name :: name in jobs <==> name in StoredNames(items))
    && forall name | name in jobs ::
         && jobs[name].name == name && KeptJobOk(fmt, jobs[name], commit) && Finished(jobs[name], conclusion)
         && jobs[name].attempt <= attempt
  }

  lemma FiledMore(fmt: Formats, init: seq<Json>, last: Json, commit: string, conclusion: string, attempt: int)
    requires Filed(fmt, init, ByName(init), commit, conclusion, attempt) && StoredName(last) != "" && conclusion != ""
    requires StoredJobOk(fmt, last, StoredName(last), commit, JString(conclusion), "completed")
    requires last.members["run_attempt"].n <= attempt
    ensures Filed(fmt, init + [last], ByName(init + [last]), commit, conclusion, attempt)
  {
    ByNameOfMore(init, last);
    StoredJobIsKept(fmt, last, StoredName(last), commit, JString(conclusion), "completed");
    assert StoredNames(init + [last]) == StoredNames(init) + [StoredName(last)];
  }

  lemma {:induction false} ListIsFiled(fmt: Formats, items: seq<Json>, commit: string, conclusion: string, attempt: int)
    requires StoredListOk(fmt, items, commit, conclusion, attempt) && conclusion != ""
    ensures Filed(fmt, items, ByName(items), commit, conclusion, attempt)
    decreases |items|
  {
    if items != [] {
      var init, last := items[..|items| - 1], items[|items| - 1];
      assert items == init + [last];
      ListPrefix(fmt, items, commit, conclusion, attempt);
      ListIsFiled(fmt, init, commit, conclusion, attempt);
      FiledMore(fmt, init, last, commit, conclusion, attempt);
    }
  }

  /** Jobs under other names do not show in a list. */
  lemma {:induction false} SameJobList(a: map<string, Job>, b: map<string, Job>, names: seq<string>)
    requires forall name | name in names :: (name in a <==> name in b) && (name in a ==> a[name] == b[name])
    ensures JobList(a, names) == JobList(b, names)
  {
    if names != [] {
      var init, last := names[..|names| - 1], names[|names| - 1];
      assert names == init + [last];
      SameJobList(a, b, init);
    }
  }

  lemma JobListOfMore(jobs: map<string, Job>, init: seq<string>, last: string)
    ensures JobList(jobs, init + [last]) == JobList(jobs, init) + if last in jobs then [JobJson(jobs[last])] else []
  {
    assert (init + [last])[..|init|] == init;
  }

  /** Writing the stored jobs out again gives the stored list. */
  lemma {:induction false} ListRebuilt(fmt: Formats, items: seq<Json>, commit: string, conclusion: string, attempt: int)
    requires StoredListOk(fmt, items, commit, conclusion, attempt) && conclusion != ""
    requires Ascending(CodesOf, StoredNames(items))
    ensures JobList(ByName(items), StoredNames(items)) == items
    decreases |items|
  {
    if items != [] {
      var init, last := items[..|items| - 1], items[|items| - 1];
      var names, name := StoredNames(init), StoredName(last);
      assert items == init + [last];
      ListPrefix(fmt, items, commit, conclusion, attempt);
      AscendingFront(names, name);
      ListRebuilt(fmt, init, commit, conclusion, attempt);
      ByNameOfMore(init, last);
      StoredJobIsKept(fmt, last, name, commit, JString(conclusion), "completed");
      SameJobList(ByName(init), ByName(items), names);
      JobListOfMore(ByName(items), names, name);
    }
  }

  lemma AscendingFront(names: seq<string>, last: string)
    requires Ascending(CodesOf, names + [last])
    ensures Ascending(CodesOf, names) && last !in names
  {
    var all := names + [last];
    forall i, j | 0 <= i < j < |names| ensures Less(CodesOf(names[i]), CodesOf(names[j])) {
      assert all[i] == names[i] && all[j] == names[j];
    }
    forall i | 0 <= i < |names| ensures names[i] != last {
      assert all[i] == names[i] && all[|names|] == last;
      Trichotomy(CodesOf(names[i]), CodesOf(last));
    }
  }

  /** Names without a job may be added to the list of names. */
  lemma {:induction false} JobListPresent(jobs: map<string, Job>, names: seq<string>)
    ensures JobList(jobs, names) == JobList(jobs, Present(jobs, names))
  {
    if names != [] {
      var init, last := names[..|names| - 1], names[|names| - 1];
      assert names == init + [last];
      JobListPresent(jobs, init);
      if last in jobs {
        JobListOfMore(jobs, Present(jobs, init), last);
      } else {
        assert Present(jobs, names) == Present(jobs, init) + [] == Present(jobs, init);
        assert JobList(jobs, names) == JobList(jobs, init) + [] == JobList(jobs, init);
      }
    }
  }

  /** The list generation writes for `allowed` names, of which those with a job are the stored ones. */
  lemma AllowedRebuilt(fmt: Formats, items: seq<Json>, jobs: map<string, Job>, allowed: set<string>, commit: string,
                       conclusion: string, attempt: int)
    requires StoredListOk(fmt, items, commit, conclusion, attempt) && conclusion != ""
    requires Ascending(CodesOf, StoredNames(items)) && forall name | name in StoredNames(items) :: name in allowed
    requires forall name | name in allowed ::
               (name in jobs <==> name in ByName(items)) && (name in jobs ==> jobs[name] == ByName(items)[name])
    ensures JobList(jobs, SortedSet(allowed)) == items
  {
    var names := SortedSet(allowed);
    ListIsFiled(fmt, items, commit, conclusion, attempt);
    JobListPresent(jobs, names);
    PresentAscending(jobs, names);
    PresentMembers(jobs, names);
    AscendingUnique(CodesOf, Present(jobs, names), StoredNames(items));
    SameJobList(jobs, ByName(items), StoredNames(items));
    ListRebuilt(fmt, items, commit, conclusion, attempt);
  }

  // ----- The whole record

  /** The names of a policy's three kinds of jobs differ. */
  predicate KindsApart(policy: Policy) {
    && policy.required !! policy.allowedSkipped
    && (policy.generation.Some? ==> policy.generation.value !in policy.required + policy.allowedSkipped)
    && policy.generation != Some("")
  }

  function Required(stored: Json): seq<Json> {
    var j := Get(MembersOf(stored), "required_jobs");
    if j.JArray? then j.items else []
  }

  function Skipped(stored: Json): seq<Json> {
    var j := Get(MembersOf(stored), "allowed_skipped_jobs");
    if j.JArray? then j.items else []
  }

  function ProofJob(stored: Json, policy: Policy): map<string, Job> {
    var j := Get(MembersOf(stored), "generation_job");
    if policy.generation.Some? && IsRecord(j) then map[policy.generation.value := JobOf(j)] else map[]
  }

  /** All jobs of a stored record. */
  function JobsIn(stored: Json, policy: Policy): map<string, Job> {
    ByName(Required(stored)) + ByName(Skipped(stored)) + ProofJob(stored, policy)
  }

  /** The run a stored record tells of, in the response's terms. */
  function RunIn(stored: Json): Members {
    var m := MembersOf(stored);
    m["id" := Get(m, "run_id")]
  }

  /** The jobs are those generation may select: of the policy's kinds, kept in form, with the result their kind
      requires, from no later attempt than the run, the proof job from the run's own. */
  ghost predicate MayBeSelected(fmt: Formats, policy: Policy, commit: string, attempt: int, jobs: map<string, Job>) {
    && WantedNames(policy) <= jobs.Keys <= WantedNames(policy) + policy.allowedSkipped
    && (forall name | name in jobs ::
          && jobs[name].name == name && KeptJobOk(fmt, jobs[name], commit) && ResultOk(policy, name, jobs[name])
          && jobs[name].attempt <= attempt)
    && (policy.generation.Some? ==> jobs[policy.generation.value].attempt == attempt)
  }

  lemma ProofJobKept(fmt: Formats, stored: Json, workflow: string, commit: string, policy: Policy)
    requires StoredOk(fmt, stored, workflow, commit, policy) && policy.generation.Some? && policy.generation.value != ""
    ensures var j, name := Get(stored.members, "generation_job"), policy.generation.value;
      && IsRecord(j) && JobJson(JobOf(j)) == j && ProofJob(stored, policy) == map[name := JobOf(j)]
      && JobOf(j).name == name && KeptJobOk(fmt, JobOf(j), commit)
      && JobOf(j).status == "in_progress" && JobOf(j).conclusion.JNull? && JobOf(j).completedAt.JNull?
      && JobOf(j).attempt == Get(stored.members, "run_attempt").n
  {
    StoredJobIsKept(fmt, Get(stored.members, "generation_job"), policy.generation.value, commit, JNull, "in_progress");
  }

  /** Where each job of the record stands. */
  lemma JobsApart(fmt: Formats, stored: Json, workflow: string, commit: string, policy: Policy)
    requires StoredOk(fmt, stored, workflow, commit, policy) && KindsApart(policy)
    ensures var required, skipped, proof := ByName(Required(stored)), ByName(Skipped(stored)), ProofJob(stored, policy);
      && required.Keys == policy.required && skipped.Keys <= policy.allowedSkipped
      && proof.Keys == (if policy.generation.Some? then {policy.generation.value} else {})
      && Filed(fmt, Required(stored), required, commit, "success", Get(stored.members, "run_attempt").n)
      && Filed(fmt, Skipped(stored), skipped, commit, "skipped", Get(stored.members, "run_attempt").n)
  {
    var attempt := Get(stored.members, "run_attempt").n;
    ListIsFiled(fmt, Required(stored), commit, "success", attempt);
    ListIsFiled(fmt, Skipped(stored), commit, "skipped", attempt);
    if policy.generation.Some? { ProofJobKept(fmt, stored, workflow, commit, policy); }
    assert forall name :: name in ByName(Required(stored)) <==> name in policy.required;
  }

  ghost predicate AllFinished(fmt: Formats, jobs: map<string, Job>, commit: string, conclusion: string, attempt: int) {
    forall name | name in jobs ::
      && jobs[name].name == name && KeptJobOk(fmt, jobs[name], commit) && Finished(jobs[name], conclusion)
      && jobs[name].attempt <= attempt
  }

  ghost predicate AllRunning(fmt: Formats, jobs: map<string, Job>, commit: string, attempt: int) {
    forall name | name in jobs ::
      && jobs[name].name == name && KeptJobOk(fmt, jobs[name], commit) && jobs[name].attempt == attempt
      && jobs[name].status == "in_progress" && jobs[name].conclusion.JNull? && jobs[name].completedAt.JNull?
  }

  lemma ThreeKinds(fmt: Formats, policy: Policy, commit: string, attempt: int, required: map<string, Job>,
                   skipped: map<string, Job>, proof: map<string, Job>)
    requires KindsApart(policy) && required.Keys == policy.required && skipped.Keys <= policy.allowedSkipped
    requires proof.Keys == (if policy.generation.Some? then {policy.generation.value} else {})
    requires AllFinished(fmt, required, commit, "success", attempt)
    requires AllFinished(fmt, skipped, commit, "skipped", attempt) && AllRunning(fmt, proof, commit, attempt)
    ensures MayBeSelected(fmt, policy, commit, attempt, required + skipped + proof)
  {
    var jobs := required + skipped + proof;
    assert jobs.Keys == required.Keys + skipped.Keys + proof.Keys;
    forall name | name in jobs
      ensures jobs[name].name == name && KeptJobOk(fmt, jobs[name], commit) && ResultOk(policy, name, jobs[name])
      ensures jobs[name].attempt <= attempt
    {
      if name in proof {
        assert jobs[name] == proof[name];
      } else if name in skipped {
        assert jobs[name] == skipped[name];
      } else {
        assert jobs[name] == required[name];
      }
    }
  }

  lemma StoredJobsSelectable(fmt: Formats, stored: Json, workflow: string, commit: string, policy: Policy)
    requires StoredOk(fmt, stored, workflow, commit, policy) && KindsApart(policy)
    ensures MayBeSelected(fmt, policy, commit, Get(stored.members, "run_attempt").n, JobsIn(stored, policy))
  {
    JobsApart(fmt, stored, workflow, commit, policy);
    if policy.generation.Some? { ProofJobKept(fmt, stored, workflow, commit, policy); }
    ThreeKinds(fmt, policy, commit, Get(stored.members, "run_attempt").n,
               ByName(Required(stored)), ByName(Skipped(stored)), ProofJob(stored, policy));
  }

  lemma ListsRebuilt(fmt: Formats, stored: Json, workflow: string, commit: string, policy: Policy)
    requires StoredOk(fmt, stored, workflow, commit, policy) && KindsApart(policy)
    ensures JobList(JobsIn(stored, policy), SortedSet(policy.required)) == Required(stored)
    ensures JobList(JobsIn(stored, policy), SortedSet(policy.allowedSkipped)) == Skipped(stored)
  {
    var attempt := Get(stored.members, "run_attempt").n;
    JobsApart(fmt, stored, workflow, commit, policy);
    AllowedRebuilt(fmt, Required(stored), JobsIn(stored, policy), policy.required, commit, "success", attempt);
    AllowedRebuilt(fmt, Skipped(stored), JobsIn(stored, policy), policy.allowedSkipped, commit, "skipped", attempt);
  }

  lemma RunInField(stored: Json, key: string)
    ensures Get(RunIn(stored), key) == Get(MembersOf(stored), if key == "id" then "run_id" else key)
  {}

  lemma ProofJobRebuilt(fmt: Formats, stored: Json, workflow: string, commit: string, policy: Policy)
    requires StoredOk(fmt, stored, workflow, commit, policy) && KindsApart(policy)
    ensures var jobs := JobsIn(stored, policy);
      Get(stored.members, "generation_job") ==
      if policy.generation.Some? && policy.generation.value in jobs
      then JobJson(jobs[policy.generation.value]) else JNull
  {
    if policy.generation.Some? {
      JobsApart(fmt, stored, workflow, commit, policy);
      ProofJobKept(fmt, stored, workflow, commit, policy);
    }
  }

  const RUN_NUMBERS: set<string> := {"workflow_id", "run_id", "run_attempt", "created_at", "updated_at", "html_url"}
  const RUN_RESULT: set<string> := {"name", "path", "event", "status", "conclusion"}
  const JOB_LISTS: set<string> := {"required_jobs", "allowed_skipped_jobs", "generation_job"}

  lemma NumberRebuilt(stored: Json, workflow: string, policy: Policy, jobs: map<string, Job>, key: string)
    requires key in RUN_NUMBERS
    ensures Get(Record(workflow, policy, RunIn(stored), jobs).members, key) == Get(MembersOf(stored), key)
  {
    if key in {"workflow_id", "run_id", "run_attempt"} {
      RecordRun(workflow, policy, RunIn(stored), jobs);
      RunInField(stored, "id");
    } else {
      RecordStamps(workflow, policy, RunIn(stored), jobs);
    }
    RunInField(stored, key);
  }

  lemma ResultRebuilt(fmt: Formats, stored: Json, workflow: string, policy: Policy, jobs: map<string, Job>, key: string)
    requires StoredRunOk(fmt, MembersOf(stored), workflow, policy) && key in RUN_RESULT
    ensures Get(Record(workflow, policy, RunIn(stored), jobs).members, key) == Get(MembersOf(stored), key)
  {
    RecordScalars(workflow, policy, RunIn(stored), jobs);
    RecordResult(workflow, policy, RunIn(stored), jobs);
  }

  lemma ListsAreLists(fmt: Formats, stored: Json, workflow: string, commit: string, policy: Policy)
    requires StoredOk(fmt, stored, workflow, commit, policy)
    ensures Get(stored.members, "required_jobs") == JArray(Required(stored))
    ensures Get(stored.members, "allowed_skipped_jobs") == JArray(Skipped(stored))
  {}

  lemma JobFieldsOf(workflow: string, policy: Policy, run: Members, jobs: map<string, Job>, m: Members, key: string)
    requires key in JOB_LISTS
    requires Get(m, "required_jobs") == JArray(JobList(jobs, SortedSet(policy.required)))
    requires Get(m, "allowed_skipped_jobs") == JArray(JobList(jobs, SortedSet(policy.allowedSkipped)))
    requires Get(m, "generation_job") == if policy.generation.Some? && policy.generation.value in jobs
                                         then JobJson(jobs[policy.generation.value]) else JNull
    ensures Get(Record(workflow, policy, run, jobs).members, key) == Get(m, key)
  {
    RecordJobs(workflow, policy, run, jobs);
  }

  lemma ListRebuiltAt(fmt: Formats, stored: Json, workflow: string, commit: string, policy: Policy, key: string)
    requires StoredOk(fmt, stored, workflow, commit, policy) && KindsApart(policy) && key in JOB_LISTS
    ensures Get(Record(workflow, policy, RunIn(stored), JobsIn(stored, policy)).members, key)
            == Get(stored.members, key)
  {
    ListsAreLists(fmt, stored, workflow, commit, policy);
    ListsRebuilt(fmt, stored, workflow, commit, policy);
    ProofJobRebuilt(fmt, stored, workflow, commit, policy);
    JobFieldsOf(workflow, policy, RunIn(stored), JobsIn(stored, policy), stored.members, key);
  }

  lemma FieldRebuilt(fmt: Formats, stored: Json, workflow: string, commit: string, policy: Policy, key: string)
    requires StoredOk(fmt, stored, workflow, commit, policy) && KindsApart(policy)
    requires key in RUN_NUMBERS + RUN_RESULT + JOB_LISTS
    ensures Get(Record(workflow, policy, RunIn(stored), JobsIn(stored, policy)).members, key)
            == Get(stored.members, key)
  {
    if key in RUN_NUMBERS {
      NumberRebuilt(stored, workflow, policy, JobsIn(stored, policy), key);
    } else if key in RUN_RESULT {
      ResultRebuilt(fmt, stored, workflow, policy, JobsIn(stored, policy), key);
    } else {
      ListRebuiltAt(fmt, stored, workflow, commit, policy, key);
    }
  }

  lemma AllFields()
    ensures forall key :: key in STORED_FIELDS <==> key in RUN_NUMBERS + RUN_RESULT + JOB_LISTS
  {}

  lemma SameGets(a: Members, b: Members)
    requires a.Keys == b.Keys && forall key | key in a :: Get(a, key) == Get(b, key)
    ensures a == b
  {}

  lemma RunNumbersKept(fmt: Formats, stored: Json, workflow: string, policy: Policy)
    requires StoredRunOk(fmt, MembersOf(stored), workflow, policy)
    ensures RunNumbersOk(fmt, RunIn(stored))
  {
    forall key ensures Get(RunIn(stored), key) == Get(MembersOf(stored), if key == "id" then "run_id" else key) {
      RunInField(stored, key);
    }
  }

  /** Every accepted record is what generation writes for some run and jobs that it may select: the verifier lets
      nothing through that generation could not have made. */
  lemma StoredIsRecord(fmt: Formats, stored: Json, workflow: string, commit: string, policy: Policy)
    requires StoredOk(fmt, stored, workflow, commit, policy) && KindsApart(policy)
    ensures stored == Record(workflow, policy, RunIn(stored), JobsIn(stored, policy))
    ensures MayBeSelected(fmt, policy, commit, Get(stored.members, "run_attempt").n, JobsIn(stored, policy))
    ensures RunNumbersOk(fmt, RunIn(stored))
  {
    var record := Record(workflow, policy, RunIn(stored), JobsIn(stored, policy));
    StoredJobsSelectable(fmt, stored, workflow, commit, policy);
    RunNumbersKept(fmt, stored, workflow, policy);
    RecordKeys(workflow, policy, RunIn(stored), JobsIn(stored, policy));
    AllFields();
    forall key | key in record.members ensures Get(record.members, key) == Get(stored.members, key) {
      FieldRebuilt(fmt, stored, workflow, commit, policy, key);
    }
    SameGets(record.members, stored.members);
  }
}
