/** Evidence manifests: the attempts they name, their binding to the workflow records, and their settled normal form. */
module ValidationEvidence {
  import opened Prelude
  import opened JsonValue
  import ArtifactManifest

  datatype EvidencePolicy = EvidencePolicy(workflow: string, jobId: string, jobName: string)

  /** The policy for each artifact name. */
  type Policies = map<string, EvidencePolicy>

  /** The manifest validator as a function, the one `ValidateManifest` is proved to compute. */
  type Validator = Json -> Result<Json>

  function ManifestValidator(host: ArtifactManifest.Host): Validator { raw => ArtifactManifest.ManifestOf(host, raw) }

  ghost predicate Settles(validate: Validator) {
    forall raw | validate(raw).Ok? :: validate(validate(raw).value) == validate(raw)
  }

  lemma ManifestValidatorSettles(host: ArtifactManifest.Host)
    ensures Settles(ManifestValidator(host))
  {
    forall raw | ManifestValidator(host)(raw).Ok?
      ensures ManifestValidator(host)(ManifestValidator(host)(raw).value) == ManifestValidator(host)(raw)
    {
      ArtifactManifest.ManifestSettles(host, raw);
    }
  }

  function Producer(manifest: Json): Members { MembersOf(Get(MembersOf(manifest), "producer")) }

  // ----- The attempts the manifests name

  /** The attempt of each job, per workflow. */
  type Attempts = map<string, map<string, int>>

  function AttemptIn(attempts: Attempts, workflow: string): map<string, int> {
    if workflow in attempts then attempts[workflow] else map[]
  }

  /** One manifest names the job its policy expects, in an attempt no later than the run's. */
  predicate ProducerMatches(policy: EvidencePolicy, manifest: Json, runs: map<string, Members>) {
    && policy.workflow in runs
    && (var run, producer := runs[policy.workflow], Producer(manifest);
        && IsPositive(Get(run, "run_attempt")) && IsPositive(Get(run, "id")) && IsPositive(Get(producer, "run_attempt"))
        && Get(producer, "workflow") == JString(policy.workflow) && Get(producer, "run_id") == Get(run, "id")
        && Get(producer, "job_id") == JString(policy.jobId) && Get(producer, "job_name") == JString(policy.jobName)
        && Get(producer, "run_attempt").n <= Get(run, "run_attempt").n)
  }

  /** The attempt a raw manifest names for its policy's job, if it is valid and matches. */
  function NamedAttempt(validate: Validator, policy: EvidencePolicy, raw: Json,
                        runs: map<string, Members>): Option<int> {
    var manifest := validate(raw);
    if manifest.Ok? && ProducerMatches(policy, manifest.value, runs)
    then Some(Get(Producer(manifest.value), "run_attempt").n)
    else None
  }

  function RunAttempt(runs: map<string, Members>, workflow: string): int {
    if workflow in runs && Get(runs[workflow], "run_attempt").JInt? then Get(runs[workflow], "run_attempt").n else 0
  }

  /** The artifacts' named attempts, as a function of the artifact. */
  function NamedBy(validate: Validator, policies: Policies, values: Members,
                   runs: map<string, Members>): string -> Option<int> {
    a => if a in policies && a in values then NamedAttempt(validate, policies[a], values[a], runs) else None
  }

  /** The artifact's job has the attempt its manifest names. */
  ghost predicate Recorded(attempts: Attempts, policy: EvidencePolicy, named: Option<int>) {
    && named.Some? && policy.workflow in attempts && policy.jobName in attempts[policy.workflow]
    && attempts[policy.workflow][policy.jobName] == named.value
  }

  /** The artifact `a` is what the entry of this job comes from. */
  ghost predicate IsSource(policies: Policies, named: string -> Option<int>, a: string, workflow: string, job: string,
                           attempt: int) {
    a in policies && policies[a].workflow == workflow && policies[a].jobName == job && named(a) == Some(attempt)
  }

  /** Every entry comes from some artifact's manifest. */
  ghost predicate Sourced(policies: Policies, named: string -> Option<int>, attempts: Attempts) {
    forall w, job | w in attempts && job in attempts[w] ::
      exists a :: IsSource(policies, named, a, w, job, attempts[w][job])
  }

  /** Two artifacts of one job that name different attempts. */
  ghost predicate Disagree(policies: Policies, named: string -> Option<int>, a: string, b: string) {
    && a in policies && b in policies && policies[a].workflow == policies[b].workflow
    && policies[a].jobName == policies[b].jobName && named(a) != named(b)
  }

  /** Refused exactly when some manifest names no attempt or two of one job disagree; otherwise every artifact's
      attempt is recorded, and nothing else. */
  method EvidenceProducerAttempts(policies: Policies, named: string -> Option<int>) returns (r: Result<Attempts>)
    ensures r.Ok? ==> Sourced(policies, named, r.value)
    ensures r.Ok? ==> forall a | a in policies :: Recorded(r.value, policies[a], named(a))
    ensures r.Err? <==>
            (exists a :: a in policies && named(a).None?) || (exists a, b :: Disagree(policies, named, a, b))
  {
    var attempts: Attempts, rest := map[], policies.Keys;
    while rest != {}
      invariant rest <= policies.Keys && Sourced(policies, named, attempts)
      invariant forall a | a in policies && a !in rest :: Recorded(attempts, policies[a], named(a))
      decreases |rest|
    {
      var a :| a in rest;
      rest := rest - {a};
      var policy := policies[a];
      if named(a).None? { return Err; }
      var known := AttemptIn(attempts, policy.workflow);
      if policy.jobName in known {
        if known[policy.jobName] != named(a).value {
          ghost var b :| IsSource(policies, named, b, policy.workflow, policy.jobName, known[policy.jobName]);
          assert Disagree(policies, named, a, b);
          return Err;
        }
      } else {
        assert IsSource(policies, named, a, policy.workflow, policy.jobName, named(a).value);
        attempts := attempts[policy.workflow := known[policy.jobName := named(a).value]];
      }
    }
    forall a, b ensures !Disagree(policies, named, a, b) {
      if a in policies && b in policies {
        assert Recorded(attempts, policies[a], named(a)) && Recorded(attempts, policies[b], named(b));
      }
    }
    return Ok(attempts);
  }

  /** Only jobs some policy names have an attempt, and none is later than its run's. */
  ghost predicate AttemptsFrom(policies: Policies, runs: map<string, Members>, attempts: Attempts) {
    forall w, job | w in attempts && job in attempts[w] ::
      (exists a :: a in policies && policies[a].workflow == w && policies[a].jobName == job)
      && 0 < attempts[w][job] <= RunAttempt(runs, w)
  }

  lemma SourcedAttempts(validate: Validator, policies: Policies, values: Members, runs: map<string, Members>,
                        attempts: Attempts)
    requires Sourced(policies, NamedBy(validate, policies, values, runs), attempts)
    ensures AttemptsFrom(policies, runs, attempts)
  {}

  // ----- Binding the evidence to the workflow records

  /** The stored required jobs with a name. */
  function NamedJobs(items: seq<Json>, name: string): seq<Json> {
    if items == [] then []
    else
      var n := |items| - 1;
      if items[n].JObject? && Get(items[n].members, "name") == JString(name)
        then NamedJobs(items[..n], name) + [items[n]]
      else NamedJobs(items[..n], name)
  }

  function RequiredJob(workflows: Members, workflow: string, name: string): Option<Members> {
    var w := MembersOf(Get(workflows, workflow));
    if !Get(w, "required_jobs").JArray? then None
    else
      var matches := NamedJobs(Get(w, "required_jobs").items, name);
      if |matches| == 1 && matches[0].JObject? then Some(matches[0].members) else None
  }

  /** A normalized manifest belongs to the commit and to the job its policy names. `complete` stands for the further
      checks on one artifact's payload list, any predicate of its normalized manifest. */
  predicate Bound(policies: Policies, workflows: Members, commit: string, tree: string,
                  complete: (string, Json) -> bool, name: string, manifest: Json) {
    && name in policies && manifest.JObject?
    && Get(manifest.members, "source_sha") == JString(commit) && Get(manifest.members, "source_tree") == JString(tree)
    && (var policy := policies[name]; var job := RequiredJob(workflows, policy.workflow, policy.jobName);
        && job.Some?
        && Producer(manifest) == map[
             "workflow" := JString(policy.workflow),
             "run_id" := Get(MembersOf(Get(workflows, policy.workflow)), "run_id"),
             "run_attempt" := Get(job.value, "run_attempt"),
             "job_id" := JString(policy.jobId), "job_name" := JString(policy.jobName)])
    && complete(name, manifest)
  }

  /** A manifest that agrees with its required job names that job's attempt. */
  lemma BoundMatches(validate: Validator, policies: Policies, workflows: Members, runs: map<string, Members>,
                     values: Members, commit: string, tree: string, complete: (string, Json) -> bool, a: string)
    requires a in policies && a in values && validate(values[a]).Ok? && policies[a].workflow in runs
    requires Bound(policies, workflows, commit, tree, complete, a, validate(values[a]).value)
    requires var w := policies[a].workflow;
      && Get(MembersOf(Get(workflows, w)), "run_id") == Get(runs[w], "id")
      && IsPositive(Get(runs[w], "id")) && IsPositive(Get(runs[w], "run_attempt"))
    requires var w := policies[a].workflow; var job := RequiredJob(workflows, w, policies[a].jobName);
      job.Some? ==> IsPositive(Get(job.value, "run_attempt"))
                    && Get(job.value, "run_attempt").n <= Get(runs[w], "run_attempt").n
    ensures var job := RequiredJob(workflows, policies[a].workflow, policies[a].jobName);
      job.Some? && NamedBy(validate, policies, values, runs)(a) == Some(Get(job.value, "run_attempt").n)
  {
    var job := RequiredJob(workflows, policies[a].workflow, policies[a].jobName).value;
    var producer := Producer(validate(values[a]).value);
    assert Get(producer, "run_attempt") == Get(job, "run_attempt");
    assert Get(producer, "run_id") == Get(runs[policies[a].workflow], "id");
    assert ProducerMatches(policies[a], validate(values[a]).value, runs);
  }

  ghost predicate EvidenceOk(validate: Validator, bound: (string, Json) -> bool, names: set<string>, values: Members) {
    && values.Keys == names
    && forall a | a in names :: validate(values[a]).Ok? && bound(a, validate(values[a]).value)
  }

  ghost function Normalized(validate: Validator, values: Members): Members
    requires forall a | a in values :: validate(values[a]).Ok?
  {
    map a | a in values :: validate(values[a]).value
  }

  /** `bound` is `Bound` for given policies, workflow records and source revision. */
  method ValidateEvidence(validate: Validator, bound: (string, Json) -> bool, names: set<string>, values: Members)
    returns (r: Result<Members>)
    ensures r.Ok? <==> EvidenceOk(validate, bound, names, values)
    ensures r.Ok? ==> r.value == Normalized(validate, values)
  {
    if values.Keys != names { return Err; }
    var normalized: Members, rest := map[], names;
    while rest != {}
      invariant rest <= names && normalized.Keys == names - rest
      invariant forall a | a in normalized ::
                  validate(values[a]).Ok? && normalized[a] == validate(values[a]).value && bound(a, normalized[a])
      decreases |rest|
    {
      var a :| a in rest;
      rest := rest - {a};
      var manifest := validate(values[a]);
      if manifest.Err? || !bound(a, manifest.value) { return Err; }
      normalized := normalized[a := manifest.value];
    }
    assert normalized == Normalized(validate, values);
    return Ok(normalized);
  }

  /** Evidence normalized at generation is accepted at verification, and validates to itself. */
  lemma EvidenceSettles(host: ArtifactManifest.Host, bound: (string, Json) -> bool, names: set<string>, values: Members)
    requires EvidenceOk(ManifestValidator(host), bound, names, values)
    ensures var normalized := Normalized(ManifestValidator(host), values);
      && EvidenceOk(ManifestValidator(host), bound, names, normalized)
      && Normalized(ManifestValidator(host), normalized) == normalized
  {
    ManifestValidatorSettles(host);
    SettledEvidence(ManifestValidator(host), bound, names, values);
  }

  lemma SettledEvidence(validate: Validator, bound: (string, Json) -> bool, names: set<string>, values: Members)
    requires Settles(validate) && EvidenceOk(validate, bound, names, values)
    ensures var normalized := Normalized(validate, values);
      EvidenceOk(validate, bound, names, normalized) && Normalized(validate, normalized) == normalized
  {}
}
