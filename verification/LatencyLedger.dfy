/** The append-only latency ledger: samples, the hash chain and its external seal. */
module LatencyLedger {
  import opened Prelude

  // ----- Samples

  datatype Baseline = Baseline(os: string, architecture: string, runnerImage: string, toolchain: string)

  /** One raw observation. `target` is the run and attempt that `run_url` names, if it has that shape;
      the three instants are the parsed timestamps in seconds. */
  datatype Sample = Sample(
    runId: string, attempt: int, target: Option<(string, int)>,
    sourceSha: string, sourceTree: string, workflow: string, ref: string, category: string,
    queuedAt: real, startedAt: real, completedAt: real, queueSeconds: real, wallSeconds: real,
    cacheStatus: string, outcome: string, baseline: Baseline,
    invalidated: bool, reason: Option<string>)

  /** The six deployment slices, in the order `sorted` lists them. */
  const CATEGORIES: seq<string> :=
    ["candidate", "high-risk-pr", "main", "proved-tag-to-release", "signpath-queue", "typical-pr"]
  const CACHE_STATES: set<string> := {"hit", "miss", "partial", "disabled", "unknown"}
  const OUTCOMES: set<string> := {"success", "failure", "cancelled", "timed_out", "skipped"}

  predicate IsDigit(c: char) { '0' <= c <= '9' }

  predicate IsRunId(s: string) {
    s != [] && s[0] != '0' && forall i | 0 <= i < |s| :: IsDigit(s[i])
  }

  /** A non-blank string of at most `limit` characters. */
  predicate IsText(s: string, limit: nat) {
    |s| <= limit && exists i | 0 <= i < |s| :: s[i] !in " \t\n\r"
  }

  /** Run ids are decimal without a leading zero, texts are not blank and fit their limit. */
  lemma TextChecks()
    ensures IsRunId("7") && IsRunId("10") && !IsRunId("0") && !IsRunId("07") && !IsRunId("") && !IsRunId("7a")
    ensures IsText("ab", 2) && !IsText("ab", 1) && !IsText("  ", 2) && !IsText("", 2)
  {
    assert "ab"[0] == 'a' && "7a"[1] == 'a';
  }

  function Abs(x: real): real { if x < 0.0 then -x else x }

  function MaxReal(x: real, y: real): real { if x < y then y else x }

  /** `math.isclose(a, b, abs_tol=0.001)`: the default relative tolerance is one part in a billion. */
  predicate IsClose(a: real, b: real) {
    Abs(a - b) <= MaxReal(0.000000001 * MaxReal(Abs(a), Abs(b)), 0.001)
  }

  predicate ValidBaseline(b: Baseline) {
    IsText(b.os, 256) && IsText(b.architecture, 64) && IsText(b.runnerImage, 256) && IsText(b.toolchain, 1024)
  }

  predicate ValidTimes(s: Sample) {
    && 0.0 <= s.queueSeconds && 0.0 <= s.wallSeconds
    && s.queuedAt <= s.startedAt <= s.completedAt
    && IsClose(s.queueSeconds, s.startedAt - s.queuedAt)
    && IsClose(s.wallSeconds, s.completedAt - s.startedAt)
  }

  predicate ValidSample(s: Sample) {
    && IsRunId(s.runId) && s.attempt >= 1 && s.target == Some((s.runId, s.attempt))
    && IsHex(s.sourceSha, 40) && IsHex(s.sourceTree, 40)
    && IsText(s.workflow, 256) && IsText(s.ref, 512) && "refs/" <= s.ref && s.category in CATEGORIES
    && ValidTimes(s) && s.cacheStatus in CACHE_STATES && s.outcome in OUTCOMES && ValidBaseline(s.baseline)
    && (if s.invalidated then s.reason.Some? && IsText(s.reason.value, 1024) else s.reason.None?)
  }

  function Identity(s: Sample): (string, int) { (s.runId, s.attempt) }

  /** What a valid sample says cannot be altered on its own: neither its run, nor its attempt, nor whether and why it is
      invalidated, nor a duration by more than the two tolerances, nor an instant past its neighbour. */
  lemma SampleHoldsTogether(s: Sample, runId: string, attempt: int, queue: real, wall: real, at: real)
    requires ValidSample(s)
    ensures ValidSample(s.(runId := runId)) ==> runId == s.runId
    ensures ValidSample(s.(attempt := attempt)) ==> attempt == s.attempt
    ensures !ValidSample(s.(invalidated := !s.invalidated))
    ensures ValidSample(s.(startedAt := at)) ==> s.queuedAt <= at <= s.completedAt
    ensures s.startedAt - s.queuedAt <= 900000.0 && 0.0 <= queue <= 900000.0 ==>
              (ValidSample(s.(queueSeconds := queue)) <==> Abs(queue - (s.startedAt - s.queuedAt)) <= 0.001)
    ensures s.completedAt - s.startedAt <= 900000.0 && 0.0 <= wall <= 900000.0 ==>
              (ValidSample(s.(wallSeconds := wall)) <==> Abs(wall - (s.completedAt - s.startedAt)) <= 0.001)
    ensures queue < 0.0 ==> !ValidSample(s.(queueSeconds := queue)) && !ValidSample(s.(wallSeconds := queue))
  {}

  /** The texts of a valid sample can be replaced by exactly the well-formed ones. */
  lemma SampleTexts(s: Sample, text: string)
    requires ValidSample(s)
    ensures ValidSample(s.(sourceSha := text)) <==> IsHex(text, 40)
    ensures ValidSample(s.(sourceTree := text)) <==> IsHex(text, 40)
    ensures ValidSample(s.(workflow := text)) <==> IsText(text, 256)
    ensures ValidSample(s.(ref := text)) <==> IsText(text, 512) && "refs/" <= text
  {}

  /** All four parts of the baseline are required. */
  lemma SampleBaseline(s: Sample, b: Baseline)
    requires ValidSample(s)
    ensures ValidSample(s.(baseline := b)) <==>
            IsText(b.os, 256) && IsText(b.architecture, 64) && IsText(b.runnerImage, 256) && IsText(b.toolchain, 1024)
  {}

  /** Its names come from the fixed tables, and an invalidated one needs a reason. */
  lemma SampleNames(s: Sample, text: string)
    requires ValidSample(s)
    ensures ValidSample(s.(category := text)) <==> text in CATEGORIES
    ensures ValidSample(s.(cacheStatus := text)) <==> text in CACHE_STATES
    ensures ValidSample(s.(outcome := text)) <==> text in OUTCOMES
    ensures ValidSample(s.(invalidated := true, reason := Some(text))) <==> IsText(text, 1024)
  {}

  // ----- The hash chain

  /** A stored digest. SHA-256 is a free constructor over the three fields a record hashes;
      `Foreign` is any other text, `hex` saying whether it has the shape of a digest. */
  datatype Digest =
    | Genesis
    | Hash(ordinal: int, previous: Digest, sample: Sample)
    | Foreign(id: nat, hex: bool)

  datatype Record = Record(ordinal: int, previous: Digest, sample: Sample, hash: Digest)

  datatype Ledger = Ledger(records: seq<Record>, count: int, head: Digest)

  datatype Seal = Seal(count: int, head: Digest)

  const EMPTY := Ledger([], 0, Genesis)

  function HeadAt(records: seq<Record>, n: nat): Digest
    requires n <= |records|
  {
    if n == 0 then Genesis else records[n - 1].hash
  }

  predicate LinkOk(records: seq<Record>, i: nat)
    requires i < |records|
  {
    var r := records[i];
    r.ordinal == i + 1 && r.previous == HeadAt(records, i)
    && r.hash == Hash(r.ordinal, r.previous, r.sample) && ValidSample(r.sample)
  }

  ghost predicate Chained(records: seq<Record>) {
    forall i | 0 <= i < |records| :: LinkOk(records, i)
  }

  ghost predicate DistinctRuns(records: seq<Record>) {
    forall i, j | 0 <= i < j < |records| :: Identity(records[i].sample) != Identity(records[j].sample)
  }

  ghost predicate ValidLedger(l: Ledger) {
    && l.count == |l.records| && Chained(l.records) && DistinctRuns(l.records)
    && l.head == HeadAt(l.records, |l.records|)
  }

  predicate IsDigestText(d: Digest) { d.Foreign? ==> d.hex }

  predicate ValidSeal(s: Seal) { s.count >= 0 && IsDigestText(s.head) }

  function SealOf(l: Ledger): Seal { Seal(l.count, l.head) }

  /** `_require_seal`. */
  predicate Sealed(l: Ledger, s: Seal) { ValidSeal(s) && l.count == s.count && l.head == s.head }

  method ValidateLedger(l: Ledger) returns (ok: bool)
    ensures ok <==> ValidLedger(l)
  {
    if l.count != |l.records| { return false; }
    var prior := Genesis;
    var identities: set<(string, int)> := {};
    for i := 0 to |l.records|
      invariant forall k | 0 <= k < i :: LinkOk(l.records, k)
      invariant DistinctRuns(l.records[..i])
      invariant prior == HeadAt(l.records, i) && IsDigestText(prior)
      invariant identities == set k | 0 <= k < i :: Identity(l.records[k].sample)
    {
      var r := l.records[i];
      assert Chained(l.records) ==> LinkOk(l.records, i);
      if r.ordinal != i + 1 || r.previous != prior { return false; }
      var calculated := Hash(r.ordinal, r.previous, r.sample);
      if r.hash != calculated || !ValidSample(r.sample) { return false; }
      if Identity(r.sample) in identities { return false; }
      identities := identities + {Identity(r.sample)};
      prior := calculated;
    }
    assert l.records[..|l.records|] == l.records;
    return IsDigestText(l.head) && l.head == prior;
  }

  // ----- A seal determines its ledger

  lemma GenesisHead(a: seq<Record>)
    requires Chained(a)
    ensures a == [] <==> HeadAt(a, |a|) == Genesis
  {
    if a != [] { assert LinkOk(a, |a| - 1); }
  }

  lemma {:induction false} HeadDeterminesRecords(a: seq<Record>, b: seq<Record>)
    requires Chained(a) && Chained(b)
    requires HeadAt(a, |a|) == HeadAt(b, |b|)
    ensures a == b
  {
    GenesisHead(a);
    GenesisHead(b);
    if a != [] {
      var i, j := |a| - 1, |b| - 1;
      assert LinkOk(a, i) && LinkOk(b, j);
      assert a[i] == b[j];
      ChainedPrefix(a, i);
      ChainedPrefix(b, j);
      assert HeadAt(a[..i], i) == HeadAt(a, i) && HeadAt(b[..j], j) == HeadAt(b, j);
      HeadDeterminesRecords(a[..i], b[..j]);
      assert a == a[..i] + [a[i]] && b == b[..j] + [b[j]];
    }
  }

  lemma ChainedPrefix(a: seq<Record>, n: nat)
    requires Chained(a) && n <= |a|
    ensures Chained(a[..n])
  {
    forall i | 0 <= i < n ensures LinkOk(a[..n], i) {
      assert LinkOk(a, i);
    }
  }

  /** Any edit, reorder, insertion or deletion that leaves a valid ledger breaks the seal. */
  lemma SealDeterminesLedger(a: Ledger, b: Ledger, s: Seal)
    requires ValidLedger(a) && ValidLedger(b)
    requires Sealed(a, s) && Sealed(b, s)
    ensures a == b
  {
    HeadDeterminesRecords(a.records, b.records);
  }

  lemma OwnSeal(l: Ledger)
    requires ValidLedger(l)
    ensures Sealed(l, SealOf(l))
  {
    if l.records != [] { assert LinkOk(l.records, |l.records| - 1); }
  }

  // ----- Appending

  function NextRecord(l: Ledger, sample: Sample): Record {
    Record(l.count + 1, l.head, sample, Hash(l.count + 1, l.head, sample))
  }

  function Extended(l: Ledger, sample: Sample): Ledger {
    var r := NextRecord(l, sample);
    Ledger(l.records + [r], l.count + 1, r.hash)
  }

  ghost predicate HasRun(records: seq<Record>, identity: (string, int)) {
    exists i | 0 <= i < |records| :: Identity(records[i].sample) == identity
  }

  ghost predicate MayAppend(l: Ledger, sample: Sample, expected: Option<Seal>) {
    && ValidLedger(l)
    && (if expected.None? then l.count <= 0 else Sealed(l, expected.value))
    && ValidSample(sample) && !HasRun(l.records, Identity(sample))
  }

  lemma ExtendedValid(l: Ledger, sample: Sample)
    requires ValidLedger(l) && ValidSample(sample) && !HasRun(l.records, Identity(sample))
    ensures ValidLedger(Extended(l, sample))
  {
    var records := Extended(l, sample).records;
    forall i | 0 <= i < |records| ensures LinkOk(records, i) {
      if i < |l.records| { assert LinkOk(l.records, i); }
    }
  }

  method AppendSample(l: Ledger, sample: Sample, expected: Option<Seal>) returns (r: Result<Ledger>)
    ensures r == if MayAppend(l, sample, expected) then Ok(Extended(l, sample)) else Err
    ensures r.Ok? ==> ValidLedger(r.value)
  {
    var valid := ValidateLedger(l);
    if !valid { return Err; }
    if l.count > 0 && expected.None? { return Err; }
    if expected.Some? && !Sealed(l, expected.value) { return Err; }
    if !ValidSample(sample) { return Err; }
    for i := 0 to |l.records|
      invariant forall k | 0 <= k < i :: Identity(l.records[k].sample) != Identity(sample)
    {
      if Identity(l.records[i].sample) == Identity(sample) { return Err; }
    }
    ExtendedValid(l, sample);
    var result := Extended(l, sample);
    valid := ValidateLedger(result);
    return if valid then Ok(result) else Err;
  }
}
