/** Comparison segments, one representative per run, and the percentile report. */
module LatencyReport {
  import opened Prelude
  import opened LatencyLedger
  import opened OrderStatistics

  const MINIMUM_RUNS := 5

  /** The fields that must stay fixed across a comparable streak. Their digest is injective, so the model compares
      them. */
  datatype Comparison = Comparison(category: string, workflow: string, ref: string, baseline: Baseline)

  function ComparisonOf(s: Sample): Comparison { Comparison(s.category, s.workflow, s.ref, s.baseline) }

  datatype Segment = Segment(index: int, identity: Comparison, samples: seq<Sample>)

  /** A run streak is comparable while category, workflow, ref and all four parts of the baseline stay the same. */
  lemma SameComparison(a: Sample, b: Sample)
    ensures ComparisonOf(a) == ComparisonOf(b) <==>
            && a.category == b.category && a.workflow == b.workflow && a.ref == b.ref
            && a.baseline.os == b.baseline.os && a.baseline.architecture == b.baseline.architecture
            && a.baseline.runnerImage == b.baseline.runnerImage && a.baseline.toolchain == b.baseline.toolchain
  {}

  // ----- Segments

  function Flatten(segments: seq<Segment>): seq<Sample> {
    if segments == [] then [] else Flatten(segments[..|segments| - 1]) + segments[|segments| - 1].samples
  }

  ghost predicate UniformSegment(g: Segment, i: nat) {
    g.index == i + 1 && g.samples != [] && forall s | s in g.samples :: ComparisonOf(s) == g.identity
  }

  /** The pieces concatenate to the history in order, are uniform inside and differ at each border. */
  ghost predicate Segmentation(segments: seq<Segment>, samples: seq<Sample>) {
    && Flatten(segments) == samples
    && (forall i | 0 <= i < |segments| :: UniformSegment(segments[i], i))
    && (forall i | 0 < i < |segments| :: segments[i - 1].identity != segments[i].identity)
  }

  method ComparisonSegments(samples: seq<Sample>) returns (segments: seq<Segment>)
    ensures Segmentation(segments, samples)
  {
    segments := [];
    for i := 0 to |samples|
      invariant Segmentation(segments, samples[..i])
    {
      var identity := ComparisonOf(samples[i]);
      ghost var before := segments;
      if segments == [] || segments[|segments| - 1].identity != identity {
        segments := segments + [Segment(|segments| + 1, identity, [])];
      }
      var n := |segments| - 1;
      var grown := segments[n].samples + [samples[i]];
      assert segments[n].samples == [] ==> grown == [samples[i]];
      segments := segments[..n] + [segments[n].(samples := grown)];
      assert segments[..n] == if n == |before| then before else before[..n];
      WithSampleSegments(before, samples[..i], samples[i]);
      assert samples[..i + 1] == samples[..i] + [samples[i]];
    }
    assert samples[..|samples|] == samples;
  }

  /** One turn of the loop: the sample opens a segment, or joins the last. */
  function WithSample(segments: seq<Segment>, s: Sample): seq<Segment> {
    var n := |segments| - 1;
    if segments == [] || segments[n].identity != ComparisonOf(s)
    then segments + [Segment(|segments| + 1, ComparisonOf(s), [s])]
    else segments[..n] + [segments[n].(samples := segments[n].samples + [s])]
  }

  lemma OpenSegment(segments: seq<Segment>, samples: seq<Sample>, s: Sample)
    requires Segmentation(segments, samples)
    requires segments != [] ==> segments[|segments| - 1].identity != ComparisonOf(s)
    ensures Segmentation(segments + [Segment(|segments| + 1, ComparisonOf(s), [s])], samples + [s])
  {
    var n, more := |segments|, segments + [Segment(|segments| + 1, ComparisonOf(s), [s])];
    assert more[..n] == segments;
    assert Flatten(more) == Flatten(segments) + [s];
    forall i | 0 <= i < |more| ensures UniformSegment(more[i], i) {
      if i < n { assert UniformSegment(segments[i], i); }
    }
    forall i | 0 < i < |more| ensures more[i - 1].identity != more[i].identity {
      assert more[i - 1] == segments[i - 1];
    }
  }

  lemma GrowSegment(segments: seq<Segment>, samples: seq<Sample>, s: Sample)
    requires Segmentation(segments, samples) && segments != []
    requires segments[|segments| - 1].identity == ComparisonOf(s)
    ensures var n := |segments| - 1;
      Segmentation(segments[..n] + [segments[n].(samples := segments[n].samples + [s])], samples + [s])
  {
    var n := |segments| - 1;
    var front, last := segments[..n], segments[n];
    var grown := last.(samples := last.samples + [s]);
    var more := front + [grown];
    assert more[..n] == front;
    assert Flatten(more) == Flatten(front) + (last.samples + [s]) == Flatten(segments) + [s];
    forall i | 0 <= i < |more| ensures UniformSegment(more[i], i) {
      assert UniformSegment(segments[i], i);
    }
    forall i | 0 < i < |more| ensures more[i - 1].identity != more[i].identity {
      assert more[i - 1].identity == segments[i - 1].identity && more[i].identity == segments[i].identity;
    }
  }

  lemma WithSampleSegments(segments: seq<Segment>, samples: seq<Sample>, s: Sample)
    requires Segmentation(segments, samples)
    ensures Segmentation(WithSample(segments, s), samples + [s])
  {
    if segments == [] || segments[|segments| - 1].identity != ComparisonOf(s) {
      OpenSegment(segments, samples, s);
    } else {
      GrowSegment(segments, samples, s);
    }
  }

  /** Without its last segment, a segmentation is one of the history without those samples. */
  lemma FrontSegments(segments: seq<Segment>, samples: seq<Sample>)
    requires Segmentation(segments, samples) && segments != []
    ensures var n := |segments| - 1; var k := |samples| - |segments[n].samples|;
      0 <= k && Segmentation(segments[..n], samples[..k])
  {
    var n := |segments| - 1;
    assert samples == Flatten(segments[..n]) + segments[n].samples;
    assert samples[..|samples| - |segments[n].samples|] == Flatten(segments[..n]);
  }

  lemma EmptySegmentation(segments: seq<Segment>, samples: seq<Sample>)
    requires Segmentation(segments, samples)
    ensures segments == [] <==> samples == []
  {
    if segments != [] { assert UniformSegment(segments[|segments| - 1], |segments| - 1); }
  }

  /** A history has only one segmentation. */
  lemma {:induction false} SegmentationUnique(a: seq<Segment>, b: seq<Segment>, samples: seq<Sample>)
    requires Segmentation(a, samples) && Segmentation(b, samples)
    ensures a == b
    decreases |a|
  {
    EmptySegmentation(a, samples);
    EmptySegmentation(b, samples);
    if a != [] {
      var m, n := |a| - 1, |b| - 1;
      SameLast(a, b, samples);
      FrontSegments(a, samples);
      FrontSegments(b, samples);
      SegmentationUnique(a[..m], b[..n], samples[..|samples| - |a[m].samples|]);
      assert a == a[..m] + [a[m]] && b == b[..n] + [b[n]];
      assert UniformSegment(a[m], m) && UniformSegment(b[n], n);
    }
  }

  lemma SameLast(a: seq<Segment>, b: seq<Segment>, samples: seq<Sample>)
    requires Segmentation(a, samples) && Segmentation(b, samples) && a != [] && b != []
    ensures a[|a| - 1].samples == b[|b| - 1].samples && a[|a| - 1].identity == b[|b| - 1].identity
  {
    LastSegment(a, samples);
    LastSegment(b, samples);
    assert |a[|a| - 1].samples| == |b[|b| - 1].samples|;
  }

  ghost predicate UniformFrom(samples: seq<Sample>, k: nat)
    requires k <= |samples|
  {
    forall i, j | k <= i < |samples| && k <= j < |samples| :: ComparisonOf(samples[i]) == ComparisonOf(samples[j])
  }

  /** The active segment is the longest uniform suffix of the history. */
  lemma LastSegment(segments: seq<Segment>, samples: seq<Sample>)
    requires Segmentation(segments, samples) && segments != []
    ensures var active := segments[|segments| - 1]; var k := |samples| - |active.samples|;
      && 0 <= k < |samples| && samples[k..] == active.samples && UniformFrom(samples, k)
      && active.identity == ComparisonOf(samples[|samples| - 1])
      && forall j | 0 <= j < k :: !UniformFrom(samples, j)
  {
    var n := |segments| - 1;
    var active := segments[n];
    var k := |samples| - |active.samples|;
    assert UniformSegment(active, n);
    assert samples[k..] == active.samples;
    forall i | k <= i < |samples| ensures ComparisonOf(samples[i]) == active.identity {
      assert samples[i] == active.samples[i - k];
    }
    if n > 0 {
      var previous := segments[n - 1];
      assert UniformSegment(previous, n - 1);
      var rest := Flatten(segments[..n]);
      assert samples == rest + active.samples;
      assert rest == Flatten(segments[..n][..n - 1]) + previous.samples;
      assert samples[k - 1] == rest[k - 1] == previous.samples[|previous.samples| - 1];
      assert ComparisonOf(samples[k - 1]) == previous.identity != ComparisonOf(samples[k]);
      forall j | 0 <= j < k ensures !UniformFrom(samples, j) {
        assert j <= k - 1 < k < |samples|;
      }
    } else {
      assert Flatten(segments[..n]) == [];
    }
  }

  // ----- One representative per run

  datatype Representative = Representative(runId: string, ids: seq<(string, int)>, queue: real, wall: real)

  /** The distinct run ids, in order of first appearance. */
  function RunIds(samples: seq<Sample>): seq<string> {
    if samples == [] then []
    else
      var n := |samples| - 1;
      var ids := RunIds(samples[..n]);
      if samples[n].runId in ids then ids else ids + [samples[n].runId]
  }

  function RunIdSet(samples: seq<Sample>): set<string> { set s | s in samples :: s.runId }

  lemma {:induction false} RunIdsDistinct(samples: seq<Sample>)
    ensures forall i, j | 0 <= i < j < |RunIds(samples)| :: RunIds(samples)[i] != RunIds(samples)[j]
    ensures |RunIdSet(samples)| == |RunIds(samples)|
    ensures forall r :: r in RunIds(samples) <==> r in RunIdSet(samples)
  {
    if samples != [] {
      var n := |samples| - 1;
      RunIdsDistinct(samples[..n]);
      assert samples == samples[..n] + [samples[n]];
      assert RunIdSet(samples) == RunIdSet(samples[..n]) + {samples[n].runId};
    }
  }

  /** Later samples only add runs at the end. */
  lemma {:induction false} RunIdsGrow(samples: seq<Sample>, more: seq<Sample>)
    ensures RunIds(samples) <= RunIds(samples + more)
  {
    if more == [] {
      assert samples + more == samples;
    } else {
      var n := |more| - 1;
      RunIdsGrow(samples, more[..n]);
      assert (samples + more)[..|samples| + n] == samples + more[..n];
    }
  }

  function Attempts(samples: seq<Sample>, runId: string): seq<Sample> {
    if samples == [] then []
    else
      var n := |samples| - 1;
      if samples[n].runId == runId then Attempts(samples[..n], runId) + [samples[n]] else Attempts(samples[..n], runId)
  }

  lemma {:induction false} AttemptsOfRun(samples: seq<Sample>, runId: string)
    ensures Attempts(samples, runId) != [] <==> runId in RunIds(samples)
    ensures forall s :: s in Attempts(samples, runId) <==> s in samples && s.runId == runId
  {
    if samples != [] {
      var n := |samples| - 1;
      AttemptsOfRun(samples[..n], runId);
      assert samples == samples[..n] + [samples[n]];
    }
  }

  function Slowest(values: seq<real>): (m: real)
    requires values != []
    ensures m in values && forall v | v in values :: v <= m
  {
    var n := |values| - 1;
    assert values == values[..n] + [values[n]];
    if n == 0 then values[0] else MaxReal(Slowest(values[..n]), values[n])
  }

  function Queues(attempts: seq<Sample>): seq<real> {
    seq(|attempts|, i requires 0 <= i < |attempts| => attempts[i].queueSeconds)
  }

  function Walls(attempts: seq<Sample>): seq<real> {
    seq(|attempts|, i requires 0 <= i < |attempts| => attempts[i].wallSeconds)
  }

  function Ids(attempts: seq<Sample>): seq<(string, int)> {
    seq(|attempts|, i requires 0 <= i < |attempts| => Identity(attempts[i]))
  }

  /** Every attempt's id, and the slowest of the attempts for each metric separately. */
  function Summary(attempts: seq<Sample>, runId: string): Representative
    requires attempts != []
  {
    Representative(runId, Ids(attempts), Slowest(Queues(attempts)), Slowest(Walls(attempts)))
  }

  lemma SummaryOfMore(attempts: seq<Sample>, s: Sample, runId: string)
    requires attempts != []
    ensures Summary(attempts + [s], runId) == var r := Summary(attempts, runId);
      Representative(runId, r.ids + [Identity(s)], MaxReal(r.queue, s.queueSeconds), MaxReal(r.wall, s.wallSeconds))
  {
    var more := attempts + [s];
    var n := |attempts|;
    assert Queues(more)[..n] == Queues(attempts);
    assert Walls(more)[..n] == Walls(attempts);
    assert Ids(more) == Ids(attempts) + [Identity(s)];
  }

  function Representatives(samples: seq<Sample>): (reps: seq<Representative>)
    ensures |reps| == |RunIds(samples)|
    ensures forall i | 0 <= i < |reps| ::
              Attempts(samples, RunIds(samples)[i]) != []
              && reps[i] == Summary(Attempts(samples, RunIds(samples)[i]), RunIds(samples)[i])
  {
    var ids := RunIds(samples);
    assert forall i | 0 <= i < |ids| :: Attempts(samples, ids[i]) != [] by {
      forall i | 0 <= i < |ids| ensures Attempts(samples, ids[i]) != [] { AttemptsOfRun(samples, ids[i]); }
    }
    seq(|ids|, i requires 0 <= i < |ids| => Summary(Attempts(samples, ids[i]), ids[i]))
  }

  lemma AttemptsStep(samples: seq<Sample>, i: nat, r: string)
    requires i < |samples|
    ensures Attempts(samples[..i + 1], r) ==
            if samples[i].runId == r then Attempts(samples[..i], r) + [samples[i]] else Attempts(samples[..i], r)
    ensures RunIds(samples[..i + 1]) ==
            if samples[i].runId in RunIds(samples[..i]) then RunIds(samples[..i])
              else RunIds(samples[..i]) + [samples[i].runId]
  {
    assert samples[..i + 1][..i] == samples[..i];
  }

  ghost predicate IsEntry(entry: Representative, samples: seq<Sample>, r: string) {
    Attempts(samples, r) != [] && entry == Summary(Attempts(samples, r), r)
  }

  ghost predicate EntriesFor(order: seq<string>, entries: map<string, Representative>, samples: seq<Sample>) {
    && order == RunIds(samples)
    && (forall r :: r in entries <==> r in order)
    && (forall r | r in entries :: IsEntry(entries[r], samples, r))
  }

  /** The dictionary of representatives keeps its insertion order in `order`. */
  method RunDurationRepresentatives(samples: seq<Sample>) returns (reps: seq<Representative>)
    ensures reps == Representatives(samples)
  {
    var order: seq<string>, entries: map<string, Representative> := [], map[];
    for i := 0 to |samples|
      invariant EntriesFor(order, entries, samples[..i])
    {
      order, entries := AddAttempt(order, entries, samples[i], samples, i);
    }
    assert samples[..|samples|] == samples;
    reps := InOrder(order, entries);
    assert reps == Representatives(samples);
  }

  /** `list(representatives.values())`. */
  method InOrder(order: seq<string>, entries: map<string, Representative>) returns (reps: seq<Representative>)
    requires forall r | r in order :: r in entries
    ensures |reps| == |order| && forall k | 0 <= k < |order| :: reps[k] == entries[order[k]]
  {
    reps := [];
    for i := 0 to |order|
      invariant |reps| == i && forall k | 0 <= k < i :: reps[k] == entries[order[k]]
    {
      reps := reps + [entries[order[i]]];
    }
  }

  /** One turn of the loop: a first attempt opens an entry, a retry can only raise its two maxima. */
  method AddAttempt(order: seq<string>, entries: map<string, Representative>, s: Sample, ghost samples: seq<Sample>,
                    ghost i: nat)
    returns (order': seq<string>, entries': map<string, Representative>)
    requires i < |samples| && s == samples[i] && EntriesFor(order, entries, samples[..i])
    ensures EntriesFor(order', entries', samples[..i + 1])
  {
    order' := order;
    var entry := Representative(s.runId, [Identity(s)], s.queueSeconds, s.wallSeconds);
    if s.runId !in entries {
      order' := order + [s.runId];
    } else {
      var r := entries[s.runId];
      entry := Representative(s.runId, r.ids + [Identity(s)], MaxReal(r.queue, s.queueSeconds),
                              MaxReal(r.wall, s.wallSeconds));
    }
    entries' := entries[s.runId := entry];
    AttemptsStep(samples, i, s.runId);
    EntryOfRun(order, entries, samples[..i], s);
    EntriesStep(order, entries, entry, samples, i);
  }

  lemma EntriesStep(order: seq<string>, entries: map<string, Representative>, entry: Representative,
                    samples: seq<Sample>, i: nat)
    requires i < |samples| && EntriesFor(order, entries, samples[..i])
    requires IsEntry(entry, samples[..i + 1], samples[i].runId)
    ensures var run := samples[i].runId;
      EntriesFor(if run in entries then order else order + [run], entries[run := entry], samples[..i + 1])
  {
    var run := samples[i].runId;
    var more := entries[run := entry];
    AttemptsStep(samples, i, run);
    forall r | r in more ensures IsEntry(more[r], samples[..i + 1], r) {
      AttemptsStep(samples, i, r);
      assert r != run ==> IsEntry(entries[r], samples[..i], r);
    }
  }

  lemma EntryOfRun(order: seq<string>, entries: map<string, Representative>, before: seq<Sample>, s: Sample)
    requires EntriesFor(order, entries, before)
    ensures Summary(Attempts(before, s.runId) + [s], s.runId) ==
            if s.runId in entries
            then var r := entries[s.runId];
              Representative(s.runId, r.ids + [Identity(s)], MaxReal(r.queue, s.queueSeconds),
                             MaxReal(r.wall, s.wallSeconds))
            else Representative(s.runId, [Identity(s)], s.queueSeconds, s.wallSeconds)
  {
    if s.runId in entries {
      SummaryOfMore(Attempts(before, s.runId), s, s.runId);
    } else {
      AttemptsOfRun(before, s.runId);
      assert Attempts(before, s.runId) + [s] == [s];
      assert Ids([s]) == [Identity(s)];
    }
  }

  // ----- The report of one category

  datatype GroupReport = GroupReport(index: int, identity: Comparison, sampleCount: nat, runIds: seq<string>,
                                     ids: seq<(string, int)>)

  datatype CategoryReport = CategoryReport(
    complete: bool, sampleCount: nat, activeCount: nat, runCount: nat, ids: seq<(string, int)>,
    queue: Option<(real, real)>, wall: Option<(real, real)>, representatives: seq<Representative>,
    active: Option<Comparison>, drift: bool, groups: seq<GroupReport>)

  const EMPTY_REPORT := CategoryReport(false, 0, 0, 0, [], None, None, [], None, false, [])

  function SegmentReport(g: Segment): GroupReport {
    GroupReport(g.index, g.identity, |g.samples|, RunIds(g.samples), Ids(g.samples))
  }

  function SegmentReports(segments: seq<Segment>): seq<GroupReport> {
    seq(|segments|, i requires 0 <= i < |segments| => SegmentReport(segments[i]))
  }

  function QueueValues(reps: seq<Representative>): seq<real> {
    seq(|reps|, i requires 0 <= i < |reps| => reps[i].queue)
  }

  function WallValues(reps: seq<Representative>): seq<real> { seq(|reps|, i requires 0 <= i < |reps| => reps[i].wall) }

  /** P50 and P95, taken as the rationals 1/2 and 19/20. */
  function Percentiles(values: seq<real>, complete: bool): Option<(real, real)>
    requires complete ==> values != []
  {
    if complete then Some((NearestRank(values, 1, 2), NearestRank(values, 19, 20))) else None
  }

  /** The segmentation of a history, by its last sample. */
  ghost function SegmentsOf(samples: seq<Sample>): (segments: seq<Segment>)
    ensures Segmentation(segments, samples)
  {
    if samples == [] then []
    else
      var n := |samples| - 1;
      WithSampleSegments(SegmentsOf(samples[..n]), samples[..n], samples[n]);
      assert samples == samples[..n] + [samples[n]];
      WithSample(SegmentsOf(samples[..n]), samples[n])
  }

  lemma SegmentsNonEmpty(samples: seq<Sample>)
    ensures SegmentsOf(samples) == [] <==> samples == []
  {}

  ghost function Active(samples: seq<Sample>): seq<Sample>
    requires samples != []
  {
    SegmentsNonEmpty(samples);
    SegmentsOf(samples)[|SegmentsOf(samples)| - 1].samples
  }

  ghost function ReportOf(samples: seq<Sample>): CategoryReport {
    if samples == [] then EMPTY_REPORT
    else
      SegmentsNonEmpty(samples);
      var segments, active, reps := SegmentsOf(samples), Active(samples), Representatives(Active(samples));
      var complete := |RunIds(active)| >= MINIMUM_RUNS;
      CategoryReport(complete, |samples|, |active|, |RunIds(active)|, Ids(active),
                     Percentiles(QueueValues(reps), complete), Percentiles(WallValues(reps), complete), reps,
                     Some(segments[|segments| - 1].identity), |segments| > 1, SegmentReports(segments))
  }

  method CategoryReportFor(samples: seq<Sample>) returns (report: CategoryReport)
    requires samples != []
    ensures report == ReportOf(samples)
  {
    var segments := ComparisonSegments(samples);
    SegmentationUnique(segments, SegmentsOf(samples), samples);
    SegmentsNonEmpty(samples);
    var active := segments[|segments| - 1];
    RunIdsDistinct(active.samples);
    var distinctRuns := |set s | s in active.samples :: s.runId|;
    var complete := distinctRuns >= MINIMUM_RUNS;
    var reps := RunDurationRepresentatives(active.samples);
    report := CategoryReport(complete, |samples|, |active.samples|, distinctRuns, Ids(active.samples),
                             Percentiles(QueueValues(reps), complete), Percentiles(WallValues(reps), complete), reps,
                             Some(active.identity), |segments| > 1, SegmentReports(segments));
  }

  // ----- The whole report

  datatype Report = Report(count: int, head: Digest, categories: seq<CategoryReport>)

  function InCategory(records: seq<Record>, category: string): seq<Sample> {
    if records == [] then []
    else
      var n := |records| - 1;
      if records[n].sample.category == category then InCategory(records[..n], category) + [records[n].sample]
      else InCategory(records[..n], category)
  }

  method GroupByCategory(records: seq<Record>) returns (grouped: map<string, seq<Sample>>)
    ensures forall c :: c in grouped <==> InCategory(records, c) != []
    ensures forall c | c in grouped :: grouped[c] == InCategory(records, c)
  {
    grouped := map[];
    for i := 0 to |records|
      invariant forall c :: c in grouped <==> InCategory(records[..i], c) != []
      invariant forall c | c in grouped :: grouped[c] == InCategory(records[..i], c)
    {
      var s := records[i].sample;
      assert records[..i + 1][..i] == records[..i];
      grouped := grouped[s.category := (if s.category in grouped then grouped[s.category] else []) + [s]];
    }
    assert records[..|records|] == records;
  }

  /** The report of a category, as a function of its name. */
  ghost function CategoryReports(records: seq<Record>): string -> CategoryReport {
    name => ReportOf(InCategory(records, name))
  }

  ghost function OneEach<T>(f: string -> T, names: seq<string>): (all: seq<T>)
    ensures |all| == |names| && forall i | 0 <= i < |names| :: all[i] == f(names[i])
  {
    seq(|names|, i requires 0 <= i < |names| => f(names[i]))
  }

  ghost function ReportOn(l: Ledger): Report {
    Report(l.count, l.head, OneEach(CategoryReports(l.records), CATEGORIES))
  }

  /** Refused unless the ledger is valid and sealed; otherwise one report for each of the six categories, in order. */
  method AggregateLedger(l: Ledger, expected: Seal) returns (r: Result<Report>)
    ensures r.Ok? <==> ValidLedger(l) && Sealed(l, expected)
    ensures r.Ok? ==> r.value == ReportOn(l)
  {
    var valid := ValidateLedger(l);
    if !valid || !Sealed(l, expected) { return Err; }
    var grouped := GroupByCategory(l.records);
    var categories := ReportCategories(grouped, CATEGORIES, l.records);
    return Ok(Report(l.count, l.head, categories));
  }

  ghost predicate Groups(grouped: map<string, seq<Sample>>, records: seq<Record>) {
    && (forall c :: c in grouped <==> InCategory(records, c) != [])
    && forall c | c in grouped :: grouped[c] == InCategory(records, c)
  }

  ghost predicate Begins<T>(s: seq<T>, f: string -> T, names: seq<string>, n: nat) {
    n == |s| <= |names| && forall k | 0 <= k < n :: s[k] == f(names[k])
  }

  lemma BeginsMore<T>(s: seq<T>, f: string -> T, names: seq<string>, x: T)
    requires Begins(s, f, names, |s|) && |s| < |names| && x == f(names[|s|])
    ensures Begins(s + [x], f, names, |s| + 1)
  {}

  lemma BeginsAll<T>(s: seq<T>, f: string -> T, names: seq<string>)
    requires Begins(s, f, names, |names|)
    ensures s == OneEach(f, names)
  {}

  method ReportCategories(grouped: map<string, seq<Sample>>, names: seq<string>, ghost records: seq<Record>)
    returns (reports: seq<CategoryReport>)
    requires Groups(grouped, records)
    ensures reports == OneEach(CategoryReports(records), names)
  {
    reports := [];
    for i := 0 to |names|
      invariant Begins(reports, CategoryReports(records), names, i)
    {
      var report := ReportCategory(grouped, names[i], records);
      BeginsMore(reports, CategoryReports(records), names, report);
      reports := reports + [report];
    }
    BeginsAll(reports, CategoryReports(records), names);
  }

  method ReportCategory(grouped: map<string, seq<Sample>>, name: string, ghost records: seq<Record>)
    returns (report: CategoryReport)
    requires Groups(grouped, records)
    ensures report == CategoryReports(records)(name)
  {
    if name in grouped {
      report := CategoryReportFor(grouped[name]);
    } else {
      report := EMPTY_REPORT;
    }
  }

  // ----- Conservation

  function SumSamples(groups: seq<GroupReport>): nat {
    if groups == [] then 0 else SumSamples(groups[..|groups| - 1]) + groups[|groups| - 1].sampleCount
  }

  lemma {:induction false} GroupCounts(segments: seq<Segment>)
    ensures SumSamples(SegmentReports(segments)) == |Flatten(segments)|
  {
    if segments != [] {
      var n := |segments| - 1;
      GroupCounts(segments[..n]);
      assert SegmentReports(segments)[..n] == SegmentReports(segments[..n]);
    }
  }

  function CategoryTotal(records: seq<Record>, categories: seq<string>): nat {
    if categories == [] then 0 else |InCategory(records, categories[0])| + CategoryTotal(records, categories[1..])
  }

  lemma {:induction false} TotalStep(records: seq<Record>, categories: seq<string>)
    requires records != [] && forall i, j | 0 <= i < j < |categories| :: categories[i] != categories[j]
    ensures var n := |records| - 1;
      CategoryTotal(records, categories) ==
      CategoryTotal(records[..n], categories) + if records[n].sample.category in categories then 1 else 0
  {
    if categories != [] { TotalStep(records, categories[1..]); }
  }

  lemma {:induction false} EmptyTotal(categories: seq<string>)
    ensures CategoryTotal([], categories) == 0
  {
    if categories != [] { EmptyTotal(categories[1..]); }
  }

  /** Every record is counted in exactly one of the six categories. */
  lemma {:induction false} CategoryCounts(records: seq<Record>)
    requires Chained(records)
    ensures CategoryTotal(records, CATEGORIES) == |records|
  {
    if records == [] {
      EmptyTotal(CATEGORIES);
    } else {
      var n := |records| - 1;
      assert LinkOk(records, n);
      ChainedPrefix(records, n);
      CategoryCounts(records[..n]);
      TotalStep(records, CATEGORIES);
    }
  }

  /** A category's groups account for all of its samples, active group last. */
  lemma GroupsAccountForCategory(samples: seq<Sample>)
    ensures SumSamples(ReportOf(samples).groups) == ReportOf(samples).sampleCount == |samples|
  {
    if samples != [] { GroupCounts(SegmentsOf(samples)); }
  }

  // ----- Retries

  lemma ActiveOfMore(samples: seq<Sample>, s: Sample)
    requires samples != [] && ComparisonOf(s) == ComparisonOf(samples[|samples| - 1])
    ensures Active(samples + [s]) == Active(samples) + [s]
    ensures |SegmentsOf(samples + [s])| == |SegmentsOf(samples)|
  {}

  lemma RetryRaises(samples: seq<Sample>, s: Sample, r: string)
    requires Attempts(samples, r) != []
    ensures var more := Attempts(samples + [s], r);
      && more != []
      && Summary(Attempts(samples, r), r).queue <= Summary(more, r).queue
      && Summary(Attempts(samples, r), r).wall <= Summary(more, r).wall
  {
    var all, n := samples + [s], |samples|;
    assert all[..n] == samples && all[..n + 1] == all;
    AttemptsStep(all, n, r);
    SummaryOfMore(Attempts(samples, r), s, r);
  }

  /** One more attempt of a known run keeps the runs and can only raise each run's two durations. */
  lemma RetryDominates(samples: seq<Sample>, s: Sample)
    requires s.runId in RunIds(samples)
    ensures RunIds(samples + [s]) == RunIds(samples)
    ensures Dominates(QueueValues(Representatives(samples + [s])), QueueValues(Representatives(samples)))
    ensures Dominates(WallValues(Representatives(samples + [s])), WallValues(Representatives(samples)))
  {
    assert (samples + [s])[..|samples|] == samples;
    var ids, before, after := RunIds(samples), Representatives(samples), Representatives(samples + [s]);
    assert RunIds(samples + [s]) == ids;
    forall i | 0 <= i < |ids| ensures before[i].queue <= after[i].queue && before[i].wall <= after[i].wall {
      RetryRaises(samples, s, ids[i]);
    }
  }

  ghost predicate NotLower(later: Option<(real, real)>, earlier: Option<(real, real)>) {
    if earlier.None? then later.None?
    else later.Some? && earlier.value.0 <= later.value.0 && earlier.value.1 <= later.value.1
  }

  /** A retry: comparable with the latest sample of its category, and of a run the active segment has. */
  ghost predicate IsRetry(history: seq<Sample>, s: Sample) {
    && history != [] && ComparisonOf(s) == ComparisonOf(history[|history| - 1])
    && s.runId in RunIds(Active(history))
  }

  ghost predicate NotBetter(later: CategoryReport, earlier: CategoryReport) {
    && later.complete == earlier.complete && later.runCount == earlier.runCount
    && NotLower(later.queue, earlier.queue) && NotLower(later.wall, earlier.wall)
  }

  /** A retry of a run in the active segment never lowers P50 or P95 and never changes completeness. */
  lemma RetryNeverImproves(samples: seq<Sample>, s: Sample)
    requires IsRetry(samples, s)
    ensures NotBetter(ReportOf(samples + [s]), ReportOf(samples))
  {
    ActiveOfMore(samples, s);
    var a := Active(samples);
    RetryDominates(a, s);
    if |RunIds(a)| >= MINIMUM_RUNS {
      var q, w := QueueValues(Representatives(a)), WallValues(Representatives(a));
      var q', w' := QueueValues(Representatives(a + [s])), WallValues(Representatives(a + [s]));
      NearestRankMonotone(q, q', 1, 2);
      NearestRankMonotone(q, q', 19, 20);
      NearestRankMonotone(w, w', 1, 2);
      NearestRankMonotone(w, w', 19, 20);
    }
  }

  lemma InCategoryOfMore(records: seq<Record>, r: Record, category: string)
    ensures InCategory(records + [r], category) ==
            InCategory(records, category) + if r.sample.category == category then [r.sample] else []
  {
    assert (records + [r])[..|records|] == records;
  }

  /** Appending a retry to the ledger: the report of its category gets no better, the other five stay as they were. */
  lemma RetryOnLedger(l: Ledger, s: Sample)
    requires ValidLedger(l) && ValidSample(s) && !HasRun(l.records, Identity(s))
    requires IsRetry(InCategory(l.records, s.category), s)
    ensures var later := Extended(l, s);
      && ValidLedger(later) && Sealed(later, SealOf(later)) && ReportOn(later).count == ReportOn(l).count + 1
      && forall i | 0 <= i < |CATEGORIES| ::
           var after, before := ReportOn(later).categories[i], ReportOn(l).categories[i];
           if CATEGORIES[i] == s.category then NotBetter(after, before) else after == before
  {
    var later := Extended(l, s);
    ExtendedValid(l, s);
    OwnSeal(later);
    forall i | 0 <= i < |CATEGORIES|
      ensures var after, before := ReportOn(later).categories[i], ReportOn(l).categories[i];
        if CATEGORIES[i] == s.category then NotBetter(after, before) else after == before
    {
      InCategoryOfMore(l.records, NextRecord(l, s), CATEGORIES[i]);
      if CATEGORIES[i] == s.category { RetryNeverImproves(InCategory(l.records, s.category), s); }
    }
  }

  /** `p` holds the two order statistics of `values`, each of them one of the observed `durations`. */
  ghost predicate ObservedPercentiles(p: (real, real), values: seq<real>, durations: seq<real>) {
    && p.0 <= p.1 && p.0 in durations && p.1 in durations
    && SplitsAt(values, p.0, 1, 2) && SplitsAt(values, p.1, 19, 20)
  }

  lemma PercentilesObserved(values: seq<real>, durations: seq<real>)
    requires values != [] && forall v | v in values :: v in durations
    ensures ObservedPercentiles(Percentiles(values, true).value, values, durations)
  {
    PercentilesOrdered(values);
    NearestRankSplits(values, 1, 2);
    NearestRankSplits(values, 19, 20);
  }

  /** Each representative duration is the duration of some attempt. */
  lemma RepresentativesObserved(samples: seq<Sample>)
    ensures forall v | v in QueueValues(Representatives(samples)) :: v in Queues(samples)
    ensures forall v | v in WallValues(Representatives(samples)) :: v in Walls(samples)
  {
    forall i | 0 <= i < |RunIds(samples)|
      ensures Representatives(samples)[i].queue in Queues(samples) && Representatives(samples)[i].wall in Walls(samples)
    {
      AttemptDurations(samples, RunIds(samples)[i]);
    }
  }

  lemma AttemptDurations(samples: seq<Sample>, r: string)
    ensures forall v | v in Queues(Attempts(samples, r)) :: v in Queues(samples)
    ensures forall v | v in Walls(Attempts(samples, r)) :: v in Walls(samples)
  {
    var attempts := Attempts(samples, r);
    AttemptsOfRun(samples, r);
    forall k | 0 <= k < |attempts|
      ensures attempts[k].queueSeconds in Queues(samples) && attempts[k].wallSeconds in Walls(samples)
    {
      assert attempts[k] in samples;
      var j :| 0 <= j < |samples| && samples[j] == attempts[k];
      assert Queues(samples)[j] == attempts[k].queueSeconds && Walls(samples)[j] == attempts[k].wallSeconds;
    }
  }

  /** The figures of a report, by its active segment. */
  lemma ReportFigures(samples: seq<Sample>)
    requires samples != []
    ensures var r, a := ReportOf(samples), Active(samples);
      var reps, complete := Representatives(a), |RunIds(a)| >= MINIMUM_RUNS;
      && r.representatives == reps && (complete ==> reps != [])
      && r.queue == Percentiles(QueueValues(reps), complete) && r.wall == Percentiles(WallValues(reps), complete)
  {}

  /** Figures appear exactly when five distinct runs are comparable; then P50 <= P95, and each is a duration some
      attempt of the active segment took and has the stated rank among the runs' slowest durations. */
  lemma PercentilesAreObserved(samples: seq<Sample>)
    requires samples != []
    ensures var r := ReportOf(samples); var a := Active(samples);
      && (r.queue.Some? <==> |RunIdSet(a)| >= MINIMUM_RUNS) && (r.wall.Some? <==> r.queue.Some?)
      && (r.queue.Some? ==>
            && ObservedPercentiles(r.queue.value, QueueValues(r.representatives), Queues(a))
            && ObservedPercentiles(r.wall.value, WallValues(r.representatives), Walls(a)))
  {
    ReportFigures(samples);
    FiguresObserved(Active(samples));
  }

  lemma FiguresObserved(a: seq<Sample>)
    ensures var reps := Representatives(a);
      && (|RunIds(a)| >= MINIMUM_RUNS <==> |RunIdSet(a)| >= MINIMUM_RUNS)
      && (|RunIds(a)| >= MINIMUM_RUNS ==>
            && ObservedPercentiles(Percentiles(QueueValues(reps), true).value, QueueValues(reps), Queues(a))
            && ObservedPercentiles(Percentiles(WallValues(reps), true).value, WallValues(reps), Walls(a)))
  {
    RunIdsDistinct(a);
    RepresentativesObserved(a);
    if |RunIds(a)| >= MINIMUM_RUNS {
      PercentilesObserved(QueueValues(Representatives(a)), Queues(a));
      PercentilesObserved(WallValues(Representatives(a)), Walls(a));
    }
  }


  /** The active segment begins at the only place `k` such that the history is uniform from there on and no earlier. */
  ghost predicate ActiveFrom(samples: seq<Sample>, k: nat) {
    k < |samples| && UniformFrom(samples, k) && forall j | 0 <= j < k :: !UniformFrom(samples, j)
  }

  lemma DriftIsSplit(segments: seq<Segment>, samples: seq<Sample>)
    requires Segmentation(segments, samples) && segments != []
    ensures |segments| > 1 <==> |segments[|segments| - 1].samples| < |samples|
  {
    var n := |segments| - 1;
    assert samples == Flatten(segments[..n]) + segments[n].samples;
    if n > 0 {
      assert segments[..n][n - 1] == segments[n - 1] && UniformSegment(segments[n - 1], n - 1);
    }
  }

  /** What the rest of a report says of the history: its active part is the longest comparable tail, drift means that
      something precedes it, and it is complete with five distinct runs. */
  lemma ReportDescribes(samples: seq<Sample>)
    requires samples != []
    ensures var r := ReportOf(samples); var k := |samples| - r.activeCount;
      && 0 <= k && ActiveFrom(samples, k) && r.sampleCount == |samples|
      && r.active == Some(ComparisonOf(samples[|samples| - 1])) && (r.drift <==> k > 0)
      && r.ids == Ids(samples[k..]) && r.runCount == |RunIdSet(samples[k..])|
      && (r.complete <==> |RunIdSet(samples[k..])| >= 5) && (r.complete <==> r.queue.Some?)
      && r.representatives == Representatives(samples[k..])
  {
    SegmentsNonEmpty(samples);
    LastSegment(SegmentsOf(samples), samples);
    DriftIsSplit(SegmentsOf(samples), samples);
    RunIdsDistinct(Active(samples));
  }

  lemma {:induction false} FlattenPrefix(segments: seq<Segment>, i: nat)
    requires i <= |segments|
    ensures Flatten(segments[..i]) <= Flatten(segments)
    decreases |segments|
  {
    var n := |segments| - 1;
    if i == |segments| {
      assert segments[..i] == segments;
    } else {
      FlattenPrefix(segments[..n], i);
      assert segments[..n][..i] == segments[..i];
    }
  }

  /** The samples of the group `i`: those after all earlier groups. */
  lemma GroupSlice(segments: seq<Segment>, samples: seq<Sample>, i: nat)
    requires Segmentation(segments, samples) && i < |segments|
    ensures var from := SumSamples(SegmentReports(segments)[..i]);
      from + |segments[i].samples| <= |samples| && samples[from..from + |segments[i].samples|] == segments[i].samples
  {
    assert SegmentReports(segments)[..i] == SegmentReports(segments[..i]);
    GroupCounts(segments[..i]);
    assert segments[..i + 1][..i] == segments[..i];
    assert Flatten(segments[..i + 1]) == Flatten(segments[..i]) + segments[i].samples;
    FlattenPrefix(segments, i + 1);
  }

  /** Each comparison group reports a slice of the history, the slices one after the other. */
  lemma GroupsDescribe(samples: seq<Sample>, i: nat)
    requires i < |ReportOf(samples).groups|
    ensures var groups := ReportOf(samples).groups; var g := groups[i]; var from := SumSamples(groups[..i]);
      && from + g.sampleCount <= |samples| && g.index == i + 1 && g.sampleCount > 0
      && (forall s | s in samples[from..from + g.sampleCount] :: ComparisonOf(s) == g.identity)
      && g.ids == Ids(samples[from..from + g.sampleCount])
      && (forall r :: r in g.runIds <==> r in RunIdSet(samples[from..from + g.sampleCount]))
  {
    GroupSlice(SegmentsOf(samples), samples, i);
    assert UniformSegment(SegmentsOf(samples)[i], i);
    RunIdsDistinct(SegmentsOf(samples)[i].samples);
  }
}
