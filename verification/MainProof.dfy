/** The core of the main validation proof: workflow records and evidence generated together, and verified together. */
module MainProof {
  import opened Prelude
  import opened JsonValue
  import opened Ordering
  import ArtifactManifest
  import W = WorkflowProof
  import E = ValidationEvidence

  /** The policy tables: one policy for each workflow, one for each evidence artifact. */
  datatype Tables = Tables(workflows: map<string, W.Policy>, evidence: E.Policies)

  /** What the model leaves abstract: the manifest host, the timestamp format, and the further checks on one
      artifact's payloads. */
  datatype Checks = Checks(host: ArtifactManifest.Host, fmt: W.Formats, complete: (string, Json) -> bool)

  datatype Proof = Proof(workflows: Members, evidence: Members)

  function Runs(api: map<string, Json>): map<string, Members> { map w | w in api :: W.RunOf(api[w]) }

  function Validator(checks: Checks): E.Validator { E.ManifestValidator(checks.host) }

  function BoundTo(checks: Checks, tables: Tables, workflows: Members, target: W.Target): (string, Json) -> bool {
    (a, manifest) => E.Bound(tables.evidence, workflows, target.commit, target.tree, checks.complete, a, manifest)
  }

  /** The attempt each artifact names for its job. */
  function Named(checks: Checks, tables: Tables, api: map<string, Json>, values: Members): string -> Option<int> {
    E.NamedBy(Validator(checks), tables.evidence, values, Runs(api))
  }

  // ----- The records

  /** What the records of one generation satisfy, as a function of the workflow and its record. */
  ghost function Emits(fmt: W.Formats, tables: Tables, api: map<string, Json>, target: W.Target, attempts: E.Attempts)
    : (string, Json) -> bool
  {
    (w, record) => w in tables.workflows && w in api
      && W.Emitted(fmt, api[w], w, tables.workflows[w], target, E.AttemptIn(attempts, w), record)
  }

  /** Each of these workflows has its record. */
  ghost predicate RecordsOn(emits: (string, Json) -> bool, records: Members, on: set<string>) {
    records.Keys == on && forall w | w in on :: emits(w, records[w])
  }

  lemma OneMoreRecord(emits: (string, Json) -> bool, records: Members, on: set<string>, w: string, record: Json)
    requires RecordsOn(emits, records, on) && emits(w, record)
    ensures RecordsOn(emits, records[w := record], on + {w})
  {}

  lemma CannotEmit(emits: (string, Json) -> bool, names: set<string>, w: string)
    requires w in names && forall record :: !emits(w, record)
    ensures forall records :: !RecordsOn(emits, records, names)
  {}

  lemma RecordUnique(fmt: W.Formats, tables: Tables, api: map<string, Json>, target: W.Target,
                     attempts: E.Attempts, attempts': E.Attempts, w: string, record: Json, record': Json)
    requires E.AttemptIn(attempts, w) == E.AttemptIn(attempts', w)
    requires Emits(fmt, tables, api, target, attempts)(w, record)
             && Emits(fmt, tables, api, target, attempts')(w, record')
    ensures record == record'
  {
    W.EmittedUnique(fmt, api[w], w, tables.workflows[w], target, E.AttemptIn(attempts, w), record, record');
  }

  lemma SameRecords(emits: (string, Json) -> bool, emits': (string, Json) -> bool, records: Members, records': Members,
                    names: set<string>)
    requires forall w, record, record' | emits(w, record) && emits'(w, record') :: record == record'
    requires RecordsOn(emits, records, names) && RecordsOn(emits', records', names)
    ensures records == records'
  {
    assert records.Keys == records'.Keys;
  }

  lemma RecordsUnique(fmt: W.Formats, tables: Tables, api: map<string, Json>, target: W.Target,
                      attempts: E.Attempts, attempts': E.Attempts, records: Members, records': Members)
    requires forall w :: E.AttemptIn(attempts, w) == E.AttemptIn(attempts', w)
    requires RecordsOn(Emits(fmt, tables, api, target, attempts), records, tables.workflows.Keys)
    requires RecordsOn(Emits(fmt, tables, api, target, attempts'), records', tables.workflows.Keys)
    ensures records == records'
  {
    var emits, emits' := Emits(fmt, tables, api, target, attempts), Emits(fmt, tables, api, target, attempts');
    forall w, record, record' | emits(w, record) && emits'(w, record') ensures record == record' {
      RecordUnique(fmt, tables, api, target, attempts, attempts', w, record, record');
    }
    SameRecords(emits, emits', records, records', tables.workflows.Keys);
  }

  method EmitNamed(fmt: W.Formats, tables: Tables, api: map<string, Json>, target: W.Target, attempts: E.Attempts,
                   w: string)
    returns (r: Result<Json>)
    requires w in tables.workflows && w in api
    ensures r.Ok? ==> Emits(fmt, tables, api, target, attempts)(w, r.value)
    ensures r.Err? ==> forall record :: !Emits(fmt, tables, api, target, attempts)(w, record)
  {
    r := W.BuildWorkflowProof(fmt, api[w], w, tables.workflows[w], target, E.AttemptIn(attempts, w));
  }

  method EmitRecords(fmt: W.Formats, tables: Tables, api: map<string, Json>, target: W.Target, attempts: E.Attempts)
    returns (r: Result<Members>)
    requires tables.workflows.Keys <= api.Keys
    ensures var emits := Emits(fmt, tables, api, target, attempts);
      && (r.Ok? ==> RecordsOn(emits, r.value, tables.workflows.Keys))
      && (r.Err? ==> forall records :: !RecordsOn(emits, records, tables.workflows.Keys))
  {
    var records: Members, rest := map[], tables.workflows.Keys;
    ghost var emits := Emits(fmt, tables, api, target, attempts);
    ghost var on: set<string> := {};
    while rest != {}
      invariant on + rest == tables.workflows.Keys && RecordsOn(emits, records, on)
      decreases |rest|
    {
      var w :| w in rest;
      var record := EmitNamed(fmt, tables, api, target, attempts, w);
      if record.Err? {
        CannotEmit(emits, tables.workflows.Keys, w);
        return Err;
      }
      OneMoreRecord(emits, records, on, w, record.value);
      MoveOne(on, rest, w);
      rest := rest - {w};
      records := records[w := record.value];
      on := on + {w};
    }
    assert on == tables.workflows.Keys;
    return Ok(records);
  }

  // ----- Verification

  ghost predicate RecordsOk(fmt: W.Formats, workflows: Members, policies: map<string, W.Policy>, commit: string) {
    workflows.Keys == policies.Keys && forall w | w in policies :: W.StoredOk(fmt, workflows[w], w, commit, policies[w])
  }

  /** The verifier accepts: every stored record, and the evidence, bound to those records and in normal form. */
  ghost predicate ProofOk(checks: Checks, tables: Tables, target: W.Target, proof: Proof) {
    && RecordsOk(checks.fmt, proof.workflows, tables.workflows, target.commit)
    && E.EvidenceOk(Validator(checks), BoundTo(checks, tables, proof.workflows, target), tables.evidence.Keys,
                    proof.evidence)
    && SameValue(JObject(E.Normalized(Validator(checks), proof.evidence)), JObject(proof.evidence))
  }

  method VerifyRecords(fmt: W.Formats, workflows: Members, policies: map<string, W.Policy>, commit: string)
    returns (ok: bool)
    ensures ok <==> RecordsOk(fmt, workflows, policies, commit)
  {
    if workflows.Keys != policies.Keys { return false; }
    var rest := policies.Keys;
    while rest != {}
      invariant rest <= policies.Keys
      invariant forall w | w in policies && w !in rest :: W.StoredOk(fmt, workflows[w], w, commit, policies[w])
      decreases |rest|
    {
      var w :| w in rest;
      rest := rest - {w};
      var stored := W.ValidateStoredWorkflow(fmt, workflows[w], w, commit, policies[w]);
      if !stored { return false; }
    }
    return true;
  }

  method VerifyProof(checks: Checks, tables: Tables, target: W.Target, proof: Proof) returns (ok: bool)
    ensures ok <==> ProofOk(checks, tables, target, proof)
  {
    var records := VerifyRecords(checks.fmt, proof.workflows, tables.workflows, target.commit);
    if !records { return false; }
    var bound := BoundTo(checks, tables, proof.workflows, target);
    var evidence := E.ValidateEvidence(Validator(checks), bound, tables.evidence.Keys, proof.evidence);
    return evidence.Ok? && SameValue(JObject(evidence.value), JObject(proof.evidence));
  }

  // ----- Generation

  /** Records from the attempts the evidence names, and the evidence bound to those records, normalized. */
  ghost predicate Generated(checks: Checks, tables: Tables, target: W.Target, api: map<string, Json>, values: Members,
                            attempts: E.Attempts, proof: Proof)
  {
    var named := Named(checks, tables, api, values);
    && api.Keys == tables.workflows.Keys
    && AttemptsOk(tables.evidence, named, attempts)
    && RecordsOn(Emits(checks.fmt, tables, api, target, attempts), proof.workflows, tables.workflows.Keys)
    && E.EvidenceOk(Validator(checks), BoundTo(checks, tables, proof.workflows, target), tables.evidence.Keys, values)
    && proof.evidence == E.Normalized(Validator(checks), values)
  }

  /** A proof is generated whenever there is one to generate, and whatever generation emits, the verifier accepts. */
  method GenerateProof(checks: Checks, tables: Tables, target: W.Target, api: map<string, Json>, values: Members)
    returns (r: Result<Proof>, ghost attempts: E.Attempts)
    ensures r.Ok? ==> Generated(checks, tables, target, api, values, attempts, r.value)
    ensures r.Err? ==> forall attempts', proof :: !Generated(checks, tables, target, api, values, attempts', proof)
    ensures r.Ok? ==> ProofOk(checks, tables, target, r.value)
  {
    attempts := map[];
    if api.Keys != tables.workflows.Keys || values.Keys != tables.evidence.Keys { return Err, attempts; }
    ghost var named := Named(checks, tables, api, values);
    var producers := E.EvidenceProducerAttempts(tables.evidence, Named(checks, tables, api, values));
    if producers.Err? {
      NoAttempts(tables.evidence, named);
      return Err, attempts;
    }
    attempts := producers.value;
    var records := EmitRecords(checks.fmt, tables, api, target, producers.value);
    if records.Err? {
      NoRecords(checks, tables, target, api, values, attempts);
      return Err, attempts;
    }
    var bound := BoundTo(checks, tables, records.value, target);
    var evidence := E.ValidateEvidence(Validator(checks), bound, tables.evidence.Keys, values);
    if evidence.Err? {
      NoOtherRecords(checks, tables, target, api, values, attempts, records.value);
      return Err, attempts;
    }
    var proof := Proof(records.value, evidence.value);
    GeneratedIsAccepted(checks, tables, target, api, values, attempts, proof);
    return Ok(proof), attempts;
  }

  ghost predicate AttemptsOk(policies: E.Policies, named: string -> Option<int>, attempts: E.Attempts) {
    E.Sourced(policies, named, attempts) && forall a | a in policies :: E.Recorded(attempts, policies[a], named(a))
  }

  lemma NoAttempts(policies: E.Policies, named: string -> Option<int>)
    requires (exists a :: a in policies && named(a).None?) || (exists a, b :: E.Disagree(policies, named, a, b))
    ensures forall attempts :: !AttemptsOk(policies, named, attempts)
  {}

  /** The artifacts determine the attempt of every job. */
  lemma AttemptsUnique(policies: E.Policies, named: string -> Option<int>, a: E.Attempts, b: E.Attempts)
    requires AttemptsOk(policies, named, a) && AttemptsOk(policies, named, b)
    ensures forall w :: E.AttemptIn(a, w) == E.AttemptIn(b, w)
  {}

  lemma NoRecords(checks: Checks, tables: Tables, target: W.Target, api: map<string, Json>, values: Members,
                  attempts: E.Attempts)
    requires AttemptsOk(tables.evidence, Named(checks, tables, api, values), attempts)
    requires forall records ::
             !RecordsOn(Emits(checks.fmt, tables, api, target, attempts), records, tables.workflows.Keys)
    ensures forall attempts', proof :: !Generated(checks, tables, target, api, values, attempts', proof)
  {
    forall attempts', proof ensures !Generated(checks, tables, target, api, values, attempts', proof) {
      if Generated(checks, tables, target, api, values, attempts', proof) {
        AttemptsUnique(tables.evidence, Named(checks, tables, api, values), attempts, attempts');
        SameEmits(checks.fmt, tables, api, target, attempts, attempts', proof.workflows);
        assert false;
      }
    }
  }

  lemma SameEmits(fmt: W.Formats, tables: Tables, api: map<string, Json>, target: W.Target, attempts: E.Attempts,
                  attempts': E.Attempts, records: Members)
    requires forall w :: E.AttemptIn(attempts, w) == E.AttemptIn(attempts', w)
    requires RecordsOn(Emits(fmt, tables, api, target, attempts'), records, tables.workflows.Keys)
    ensures RecordsOn(Emits(fmt, tables, api, target, attempts), records, tables.workflows.Keys)
  {}

  lemma NoOtherRecords(checks: Checks, tables: Tables, target: W.Target, api: map<string, Json>, values: Members,
                       attempts: E.Attempts, records: Members)
    requires AttemptsOk(tables.evidence, Named(checks, tables, api, values), attempts)
    requires RecordsOn(Emits(checks.fmt, tables, api, target, attempts), records, tables.workflows.Keys)
    requires !E.EvidenceOk(Validator(checks), BoundTo(checks, tables, records, target), tables.evidence.Keys, values)
    ensures forall attempts', proof :: !Generated(checks, tables, target, api, values, attempts', proof)
  {
    forall attempts', proof ensures !Generated(checks, tables, target, api, values, attempts', proof) {
      if Generated(checks, tables, target, api, values, attempts', proof) {
        AttemptsUnique(tables.evidence, Named(checks, tables, api, values), attempts, attempts');
        RecordsUnique(checks.fmt, tables, api, target, attempts, attempts', records, proof.workflows);
        assert false;
      }
    }
  }

  // ----- The required job an artifact names

  lemma NamedJobsOfMore(items: seq<Json>, job: W.Job, name: string)
    ensures E.NamedJobs(items + [W.JobJson(job)], name) ==
            E.NamedJobs(items, name) + if job.name == name then [W.JobJson(job)] else []
  {
    W.JobJsonFields(job);
    assert (items + [W.JobJson(job)])[..|items|] == items;
  }

  lemma JobListOfMore(selected: map<string, W.Job>, init: seq<string>, last: string)
    ensures W.JobList(selected, init + [last]) ==
            W.JobList(selected, init) + if last in selected then [W.JobJson(selected[last])] else []
  {
    assert (init + [last])[..|init|] == init;
  }

  lemma {:induction false} NamedJobOfList(selected: map<string, W.Job>, names: seq<string>, name: string)
    requires forall n | n in names && n in selected :: selected[n].name == n
    requires forall i, k | 0 <= i < k < |names| :: names[i] != names[k]
    ensures E.NamedJobs(W.JobList(selected, names), name) ==
            if name in names && name in selected then [W.JobJson(selected[name])] else []
  {
    if names != [] {
      var init, last := names[..|names| - 1], names[|names| - 1];
      assert names == init + [last];
      NamedJobOfList(selected, init, name);
      JobListOfMore(selected, init, last);
      if last in selected {
        NamedJobsOfMore(W.JobList(selected, init), selected[last], name);
      } else {
        assert W.JobList(selected, init) + [] == W.JobList(selected, init);
      }
    }
  }

  lemma RecordRequiredJob(workflows: Members, w: string, policy: W.Policy, run: Members, selected: map<string, W.Job>,
                          name: string)
    requires w in workflows && workflows[w] == W.Record(w, policy, run, selected)
    requires policy.required <= selected.Keys && forall n | n in selected :: selected[n].name == n
    ensures E.RequiredJob(workflows, w, name) ==
            if name in policy.required then Some(W.JobJson(selected[name]).members) else None
  {
    var names := SortedSet(policy.required);
    W.RecordJobs(w, policy, run, selected);
    AscendingIrreflexive(CodesOf, names);
    NamedJobOfList(selected, names, name);
  }

  /** The required job of an emitted record: there for the required names and no others, in its expected attempt. */
  lemma EmittedRequiredJob(fmt: W.Formats, response: Json, workflows: Members, w: string, policy: W.Policy,
                           target: W.Target, attempts: map<string, int>, name: string)
    requires w in workflows && W.Emitted(fmt, response, w, policy, target, attempts, workflows[w])
    ensures var job := E.RequiredJob(workflows, w, name);
      && (job.Some? <==> name in policy.required)
      && (job.Some? ==>
            var last := Get(W.RunOf(response), "run_attempt").n;
            && policy.generation != Some(name) && 0 < W.ExpectedAttempt(attempts, name, last) <= last
            && Get(job.value, "run_attempt") == JInt(W.ExpectedAttempt(attempts, name, last)))
      && Get(MembersOf(workflows[w]), "run_id") == Get(W.RunOf(response), "id")
  {
    var run := W.RunOf(response);
    var attempt := Get(run, "run_attempt").n;
    var jobs, selected :| W.EmittedFrom(fmt, response, w, policy, target, attempts, workflows[w], jobs, selected);
    W.SelectedKept(fmt, W.ItemsOf(response), jobs, policy, attempts, attempt, target.commit, selected);
    W.RecordRun(w, policy, run, selected);
    RecordRequiredJob(workflows, w, policy, run, selected, name);
    if name in policy.required { RequiredIsFinished(policy, name, selected[name]); }
  }

  lemma RequiredIsFinished(policy: W.Policy, name: string, job: W.Job)
    requires name in policy.required && W.ResultOk(policy, name, job)
    ensures policy.generation != Some(name)
    ensures Get(W.JobJson(job).members, "run_attempt") == JInt(job.attempt)
  {}

  // ----- What generation emits, the verifier accepts

  /** No evidence that is bound to emitted records comes from a proof job: those are not among the required jobs. */
  lemma ProofJobNotNamed(checks: Checks, tables: Tables, target: W.Target, api: map<string, Json>, values: Members,
                         attempts: E.Attempts, proof: Proof, w: string)
    requires Generated(checks, tables, target, api, values, attempts, proof) && w in tables.workflows
    ensures tables.workflows[w].generation.Some? ==> tables.workflows[w].generation.value !in E.AttemptIn(attempts, w)
  {
    var policy := tables.workflows[w];
    if policy.generation.Some? && policy.generation.value in E.AttemptIn(attempts, w) {
      var job := policy.generation.value;
      var a :| E.IsSource(tables.evidence, Named(checks, tables, api, values), a, w, job, attempts[w][job]);
      var manifest := Validator(checks)(values[a]).value;
      assert BoundTo(checks, tables, proof.workflows, target)(a, manifest);
      assert E.RequiredJob(proof.workflows, w, job).Some?;
      EmittedRequiredJob(checks.fmt, api[w], proof.workflows, w, policy, target, E.AttemptIn(attempts, w), job);
      assert false;
    }
  }

  lemma EmittedIsStored(fmt: W.Formats, response: Json, w: string, policy: W.Policy, target: W.Target,
                        attempts: map<string, int>, record: Json)
    requires W.Emitted(fmt, response, w, policy, target, attempts, record)
    requires policy.generation.Some? ==> policy.generation.value !in attempts
    ensures W.StoredOk(fmt, record, w, target.commit, policy)
  {
    W.EmittedIsAccepted(fmt, response, w, policy, target, attempts, record);
  }

  /** A property of the tables alone: no artifact is the proof job's. */
  ghost predicate NoEvidenceOfProofJobs(tables: Tables) {
    forall a | a in tables.evidence && tables.evidence[a].workflow in tables.workflows ::
      tables.workflows[tables.evidence[a].workflow].generation != Some(tables.evidence[a].jobName)
  }

  /** With such tables every emitted record is accepted on its own, whatever the evidence check says. */
  lemma RecordAccepted(checks: Checks, tables: Tables, target: W.Target, api: map<string, Json>, values: Members,
                       attempts: E.Attempts, w: string, record: Json)
    requires NoEvidenceOfProofJobs(tables) && w in tables.workflows && w in api
    requires E.Sourced(tables.evidence, Named(checks, tables, api, values), attempts)
    requires W.Emitted(checks.fmt, api[w], w, tables.workflows[w], target, E.AttemptIn(attempts, w), record)
    ensures W.StoredOk(checks.fmt, record, w, target.commit, tables.workflows[w])
  {
    E.SourcedAttempts(Validator(checks), tables.evidence, values, Runs(api), attempts);
    EmittedIsStored(checks.fmt, api[w], w, tables.workflows[w], target, E.AttemptIn(attempts, w), record);
  }

  /** Records and evidence that generation produces together pass verification together. A record can be refused on its
      own; the evidence check of the same generation rules that case out. */
  lemma GeneratedIsAccepted(checks: Checks, tables: Tables, target: W.Target, api: map<string, Json>, values: Members,
                            attempts: E.Attempts, proof: Proof)
    requires Generated(checks, tables, target, api, values, attempts, proof)
    ensures ProofOk(checks, tables, target, proof)
  {
    forall w | w in tables.workflows
      ensures W.StoredOk(checks.fmt, proof.workflows[w], w, target.commit, tables.workflows[w])
    {
      ProofJobNotNamed(checks, tables, target, api, values, attempts, proof, w);
      EmittedIsStored(checks.fmt, api[w], w, tables.workflows[w], target, E.AttemptIn(attempts, w), proof.workflows[w]);
    }
    E.EvidenceSettles(checks.host, BoundTo(checks, tables, proof.workflows, target), tables.evidence.Keys, values);
    SameAsItself(JObject(proof.evidence));
  }

  // ----- The producer check after generation

  lemma ValidatedProducer(host: ArtifactManifest.Host, raw: Json)
    requires ArtifactManifest.ManifestOf(host, raw).Ok?
    ensures var producer := E.Producer(ArtifactManifest.ManifestOf(host, raw).value);
      producer.Keys == ArtifactManifest.PRODUCER_FIELDS
    ensures ArtifactManifest.ManifestOf(host, raw).value.JObject?
  {
    ArtifactManifest.NormalFormSettles(host, raw);
  }

  lemma ProducerIs(producer: Members, workflow: Json, runId: Json, attempt: Json, jobId: Json, jobName: Json)
    requires producer.Keys == ArtifactManifest.PRODUCER_FIELDS
    requires Get(producer, "workflow") == workflow && Get(producer, "run_id") == runId
             && Get(producer, "run_attempt") == attempt
    requires Get(producer, "job_id") == jobId && Get(producer, "job_name") == jobName
    ensures producer == map["workflow" := workflow, "run_id" := runId, "run_attempt" := attempt, "job_id" := jobId,
                            "job_name" := jobName]
  {}

  /** Once records are emitted from the attempts the evidence names, the comparison of an artifact's producer with its
      required job can only fail when the policy names a job the workflow does not require. */
  lemma ProducerAgrees(checks: Checks, tables: Tables, target: W.Target, api: map<string, Json>, values: Members,
                       attempts: E.Attempts, records: Members, a: string)
    requires RecordsOn(Emits(checks.fmt, tables, api, target, attempts), records, tables.workflows.Keys)
    requires a in tables.evidence && a in values && tables.evidence[a].workflow in tables.workflows
    requires E.Recorded(attempts, tables.evidence[a], Named(checks, tables, api, values)(a))
    ensures var manifest := Validator(checks)(values[a]); var policy := tables.evidence[a];
      && manifest.Ok?
      && (BoundTo(checks, tables, records, target)(a, manifest.value) <==>
            && policy.jobName in tables.workflows[policy.workflow].required
            && Get(MembersOf(manifest.value), "source_sha") == JString(target.commit)
            && Get(MembersOf(manifest.value), "source_tree") == JString(target.tree)
            && checks.complete(a, manifest.value))
  {
    var policy := tables.evidence[a];
    var w, manifest := policy.workflow, Validator(checks)(values[a]).value;
    EmittedRequiredJob(checks.fmt, api[w], records, w, tables.workflows[w], target, E.AttemptIn(attempts, w),
                       policy.jobName);
    ValidatedProducer(checks.host, values[a]);
    ProducerIs(E.Producer(manifest), JString(w), Get(W.RunOf(api[w]), "id"),
               JInt(attempts[w][policy.jobName]), JString(policy.jobId), JString(policy.jobName));
  }

  /** Conversely, the check of the producers that comes first refuses no artifact that agrees with its required job:
      it names that job's attempt. */
  lemma BoundIsNamed(checks: Checks, tables: Tables, target: W.Target, api: map<string, Json>, values: Members,
                     attempts: E.Attempts, records: Members, a: string)
    requires RecordsOn(Emits(checks.fmt, tables, api, target, attempts), records, tables.workflows.Keys)
    requires a in tables.evidence && a in values && tables.evidence[a].workflow in tables.workflows
    requires Validator(checks)(values[a]).Ok?
             && BoundTo(checks, tables, records, target)(a, Validator(checks)(values[a]).value)
    ensures var w, job := tables.evidence[a].workflow, tables.evidence[a].jobName;
      Named(checks, tables, api, values)(a) ==
      Some(W.ExpectedAttempt(E.AttemptIn(attempts, w), job, Get(W.RunOf(api[w]), "run_attempt").n))
  {
    var w := tables.evidence[a].workflow;
    EmittedRequiredJob(checks.fmt, api[w], records, w, tables.workflows[w], target, E.AttemptIn(attempts, w),
                       tables.evidence[a].jobName);
    EmittedRun(checks, tables, target, api, attempts, records, w);
    E.BoundMatches(Validator(checks), tables.evidence, records, Runs(api), values, target.commit, target.tree,
                   checks.complete, a);
  }

  lemma EmittedRun(checks: Checks, tables: Tables, target: W.Target, api: map<string, Json>, attempts: E.Attempts,
                   records: Members, w: string)
    requires RecordsOn(Emits(checks.fmt, tables, api, target, attempts), records, tables.workflows.Keys)
    requires w in tables.workflows
    ensures w in api && IsPositive(Get(W.RunOf(api[w]), "id")) && IsPositive(Get(W.RunOf(api[w]), "run_attempt"))
  {
    assert Emits(checks.fmt, tables, api, target, attempts)(w, records[w]);
  }
}
