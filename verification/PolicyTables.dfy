/** The policy tables of the current proof schema. */
module PolicyTables {
  import opened Prelude
  import opened JsonValue
  import W = WorkflowProof
  import E = ValidationEvidence
  import M = MainProof
  import S = StoredRecords

  const PROOF_JOB := "Publish immutable main validation proof"

  const CI_JOBS: set<string> := {
    "Select required test scope",
    "Build and verify Windows desktop candidate A",
    "Build and verify Windows desktop candidate B",
    "Compare independent Windows desktop candidates",
    "Rust desktop quality and tests",
    "Public tree and repository health",
    "Locked production dependency audit",
    "Python unit shard",
    "Python integration shard",
    "Python acceptance and performance shard",
    "Python security shard",
    "Aggregate Python evidence and coverage",
    "Web quality tests and immutable build",
    "Chromium E2E immutable snapshot",
    "Execute Windows browser and UIA observer integrations",
    "Build immutable OCI image",
    "Verify OCI Compose smoke",
    "Verify OCI SBOM and vulnerabilities"}

  const CI := W.Policy(".github/workflows/ci.yml", CI_JOBS, {}, Some(PROOF_JOB))

  const CODEQL := W.Policy(
    ".github/workflows/codeql.yml", {"Analyze python", "Analyze javascript-typescript"}, {}, None)

  const SECURITY := W.Policy(
    ".github/workflows/security.yml", {"Audit locked production dependencies and application boundaries"},
    {"Review dependency changes"}, None)

  const WORKFLOWS: map<string, W.Policy> := map["CI" := CI, "CodeQL" := CODEQL, "Security" := SECURITY]

  function Evidence(id: string, job: string): E.EvidencePolicy { E.EvidencePolicy("CI", id, job) }

  const EVIDENCE: E.Policies := map[
    "python-evidence-unit" := Evidence("python-unit", "Python unit shard"),
    "python-evidence-integration" := Evidence("python-integration", "Python integration shard"),
    "python-evidence-acceptance-performance" :=
      Evidence("python-acceptance-performance", "Python acceptance and performance shard"),
    "python-evidence-security" := Evidence("python-security", "Python security shard"),
    "python-evidence-aggregate" := Evidence("python-evidence", "Aggregate Python evidence and coverage"),
    "web-build-manifest" := Evidence("web", "Web quality tests and immutable build"),
    "e2e-evidence" := Evidence("e2e", "Chromium E2E immutable snapshot"),
    "oci-image-manifest" := Evidence("container-build", "Build immutable OCI image"),
    "oci-security-evidence" := Evidence("container-security", "Verify OCI SBOM and vulnerabilities"),
    "windows-payload-comparison-manifest" :=
      Evidence("windows-desktop-compare", "Compare independent Windows desktop candidates"),
    "windows-desktop-alpha-candidate-manifest" :=
      Evidence("windows-desktop-compare", "Compare independent Windows desktop candidates"),
    "windows-browser-observer-evidence" :=
      Evidence("windows-browser-observer", "Execute Windows browser and UIA observer integrations")]

  const TABLES := M.Tables(WORKFLOWS, EVIDENCE)

  /** What tells every evidence job from the proof job, whose name ends in `f`. */
  predicate IsEvidenceJob(job: string) { job in CI_JOBS && job != [] && job[|job| - 1] != 'f' }

  lemma EvidenceJobs()
    ensures forall a | a in EVIDENCE :: EVIDENCE[a].workflow == "CI" && IsEvidenceJob(EVIDENCE[a].jobName)
  {
    assert IsEvidenceJob("Python unit shard");
    assert IsEvidenceJob("Python integration shard");
    assert IsEvidenceJob("Python acceptance and performance shard");
    assert IsEvidenceJob("Python security shard");
    assert IsEvidenceJob("Aggregate Python evidence and coverage");
    assert IsEvidenceJob("Web quality tests and immutable build");
    assert IsEvidenceJob("Chromium E2E immutable snapshot");
    assert IsEvidenceJob("Build immutable OCI image");
    assert IsEvidenceJob("Verify OCI SBOM and vulnerabilities");
    assert IsEvidenceJob("Compare independent Windows desktop candidates");
    assert IsEvidenceJob("Execute Windows browser and UIA observer integrations");
  }

  /** Every artifact names a required job of its workflow, and none names a proof job. */
  lemma TablesFit()
    ensures M.NoEvidenceOfProofJobs(TABLES)
    ensures forall a | a in EVIDENCE ::
              EVIDENCE[a].workflow in WORKFLOWS && EVIDENCE[a].jobName in WORKFLOWS[EVIDENCE[a].workflow].required
  {
    EvidenceJobs();
    assert WORKFLOWS["CI"] == CI;
    assert PROOF_JOB[|PROOF_JOB| - 1] == 'f';
  }

  /** With these tables every record generation emits is accepted on its own. */
  lemma RepositoryRecordAccepted(
    checks: M.Checks, target: W.Target, api: map<string, Json>, values: Members, attempts: E.Attempts,
    w: string, record: Json)
    requires w in WORKFLOWS && w in api
    requires E.Sourced(EVIDENCE, M.Named(checks, TABLES, api, values), attempts)
    requires W.Emitted(checks.fmt, api[w], w, WORKFLOWS[w], target, E.AttemptIn(attempts, w), record)
    ensures W.StoredOk(checks.fmt, record, w, target.commit, WORKFLOWS[w])
  {
    TablesFit();
    M.RecordAccepted(checks, TABLES, target, api, values, attempts, w, record);
  }

  lemma CiJobsEnd()
    ensures forall job | job in CI_JOBS :: job != [] && job[|job| - 1] != 'f'
  {}

  lemma CiApart()
    ensures S.KindsApart(CI)
  {
    CiJobsEnd();
    assert PROOF_JOB[|PROOF_JOB| - 1] == 'f' && PROOF_JOB != "";
  }

  lemma SecurityApart()
    ensures S.KindsApart(SECURITY)
  {
    var required := "Audit locked production dependencies and application boundaries";
    assert |required| != |"Review dependency changes"|;
  }

  /** In each workflow the required, the skipped and the proof jobs have different names. */
  lemma TablesApart(w: string)
    requires w in WORKFLOWS
    ensures S.KindsApart(WORKFLOWS[w])
  {
    CiApart();
    SecurityApart();
    WorkflowIs(w);
  }

  lemma WorkflowIs(w: string)
    requires w in WORKFLOWS
    ensures WORKFLOWS[w] == CI || WORKFLOWS[w] == CODEQL || WORKFLOWS[w] == SECURITY
  {}

  /** With these tables the verifier accepts only records generation can write. */
  lemma RepositoryRecordsOnly(fmt: W.Formats, stored: Json, w: string, commit: string)
    requires w in WORKFLOWS && W.StoredOk(fmt, stored, w, commit, WORKFLOWS[w])
    ensures stored == W.Record(w, WORKFLOWS[w], S.RunIn(stored), S.JobsIn(stored, WORKFLOWS[w]))
  {
    TablesApart(w);
    S.StoredIsRecord(fmt, stored, w, commit, WORKFLOWS[w]);
  }
}
