/** What the journal protocol guarantees over every run of one writer, with a crash after any durable write. */
module LatencySafety {
  import opened Prelude
  import opened LatencyLedger
  import opened LatencyJournal

  /** A readable ledger, and under a whole journal one of its two sides, the seal never ahead of the ledger. */
  ghost predicate Sound(d: Disk) {
    && (d.ledger.Some? ==> ValidLedger(d.ledger.value))
    && (d.journal.Whole? ==>
          var t := d.journal.t;
          && ValidTransaction(t) && Resumable(d, t)
          && (SealIsNew(d, t) ==> LedgerIsNew(d, t))
          && (d.ledger.None? ==> t.previous == SealOf(EMPTY)))
  }

  /** The seal on disk seals the ledger on disk, or a whole journal that replaced only the ledger is still to finish. */
  ghost predicate Paired(d: Disk) {
    || d.seal.None?
    || d.seal.value == SealOf(Base(d))
    || (d.journal.Whole? && LedgerIsNew(d, d.journal.t) && d.seal.value == d.journal.t.previous)
  }

  ghost predicate Extends(d: Disk, later: Disk) { Base(d).records <= Base(later).records }

  /** `later` is a state that keeps everything `d` had. */
  ghost predicate Keeps(d: Disk, later: Disk) {
    Sound(later) && Extends(d, later) && (Paired(d) ==> Paired(later))
  }

  ghost predicate AllKeep(d: Disk, states: seq<Disk>) {
    forall i | 0 <= i < |states| :: Keeps(d, states[i])
  }

  /** The one-append check forces the journalled ledger to be the sealed one plus one record. */
  lemma OneAppend(previous: Ledger, t: Transaction)
    requires ValidLedger(previous) && ValidTransaction(t) && SealOf(previous) == t.previous
    ensures t.next == Extended(previous, t.next.records[|t.next.records| - 1].sample)
  {
    var records := t.next.records;
    var n := |records| - 1;
    assert LinkOk(records, n);
    ChainedPrefix(records, n);
    assert HeadAt(records[..n], n) == HeadAt(records, n);
    HeadDeterminesRecords(records[..n], previous.records);
    assert records == records[..n] + [records[n]];
  }

  lemma BaseValid(d: Disk)
    requires Sound(d)
    ensures ValidLedger(Base(d))
  {}

  lemma FinishKeeps(d: Disk)
    requires Sound(d) && d.journal.Whole?
    ensures var t := d.journal.t; var c := FinishCourse(d, t);
      && c.outcome == Done && |c.states| <= 4
      && AllKeep(d, c.states)
      && (forall i | 0 <= i < |c.states| - 1 :: c.states[i].journal == d.journal)
      && Last(c) == Committed(t)
  {
    var t := d.journal.t;
    OwnSeal(t.next);
    if LedgerIsOld(d, t) { OneAppend(Base(d), t); }
  }

  lemma RecoverKeeps(d: Disk)
    requires Sound(d)
    ensures AllKeep(d, RecoverCourse(d).states)
    ensures RecoverCourse(d).outcome == Done <==> !d.journal.Torn?
    ensures RecoverCourse(d).outcome == Done ==> Last(RecoverCourse(d)).journal == Absent
  {
    if d.journal.Whole? { FinishKeeps(d); }
  }

  /** The state with the completed journal, before either file is replaced. */
  function Journalled(d: Disk, next: Ledger): Disk { d.(journal := Whole(TransactionFor(d, next))) }

  lemma JournalledSound(d: Disk, sample: Sample, expected: Expected)
    requires Sound(d) && d.journal == Absent && Prepared(d, sample, expected).Ok?
    ensures var next := Prepared(d, sample, expected).value;
      ValidTransaction(TransactionFor(d, next)) && Keeps(d, Journalled(d, next))
  {
    var base := Base(d);
    ExtendedValid(base, sample);
    OwnSeal(base);
    OwnSeal(Extended(base, sample));
  }

  lemma AppendKeeps(d: Disk, sample: Sample, expected: Expected)
    requires Sound(d) && d.journal == Absent
    ensures AllKeep(d, AppendCourse(d, sample, expected).states)
  {
    var p := Prepared(d, sample, expected);
    if p.Ok? {
      var whole := Journalled(d, p.value);
      JournalledSound(d, sample, expected);
      FinishKeeps(whole);
      var c := AppendCourse(d, sample, expected);
      var finish := FinishCourse(whole, whole.journal.t);
      forall i | 0 <= i < |c.states| ensures Keeps(d, c.states[i]) {
        if i >= 2 {
          assert c.states[i] == finish.states[i - 2];
          assert Keeps(whole, finish.states[i - 2]);
        }
      }
    }
  }

  lemma CourseKeeps(d: Disk, command: Command)
    requires Sound(d)
    ensures AllKeep(d, CourseOf(d, command).states)
  {
    RecoverKeeps(d);
    if command.Collect? && !d.journal.Torn? {
      var r := RecoverCourse(d);
      AppendKeeps(Last(r), command.sample, command.expected);
      var rest := AppendCourse(Last(r), command.sample, command.expected);
      var c := CourseOf(d, command);
      assert Keeps(d, r.states[|r.states| - 1]);
      forall i | 0 <= i < |c.states| ensures Keeps(d, c.states[i]) {
        if i < |r.states| {
          assert c.states[i] == r.states[i];
        } else {
          assert c.states[i] == rest.states[1..][i - |r.states|];
          assert Keeps(Last(r), rest.states[i - |r.states| + 1]);
        }
      }
    }
  }

  /** An empty directory is where every history starts. */
  lemma FreshDirectory()
    ensures Sound(Disk(None, None, Absent)) && Paired(Disk(None, None, Absent))
  {}

  // ----- Whole runs

  /** A command and the number of its durable writes the machine survives. */
  datatype Event = Event(command: Command, power: nat)

  ghost function Step(d: Disk, e: Event): Disk { AtPower(CourseOf(d, e.command), e.power) }

  ghost function Run(d: Disk, events: seq<Event>): Disk
    decreases |events|
  {
    if events == [] then d else Run(Step(d, events[0]), events[1..])
  }

  /** Append-only, always recoverable, seal never ahead: over every run, with a crash after any durable write. */
  lemma {:induction false} RunKeeps(d: Disk, events: seq<Event>)
    requires Sound(d)
    ensures Keeps(d, Run(d, events))
    decreases |events|
  {
    if events != [] {
      var d1 := Step(d, events[0]);
      CourseKeeps(d, events[0].command);
      assert Keeps(d, d1);
      RunKeeps(d1, events[1..]);
    }
  }

  /** No reachable state has a seal that counts records the ledger beside it lacks. */
  lemma SealNeverAhead(d: Disk, events: seq<Event>)
    requires Sound(d) && Paired(d)
    ensures var later := Run(d, events);
      later.seal.Some? ==>
        exists n | 0 <= n <= |Base(later).records| ::
          later.seal.value == Seal(n, HeadAt(Base(later).records, n))
          && (later.journal.Whole? || n == |Base(later).records|)
  {
    var later := Run(d, events);
    RunKeeps(d, events);
    BaseValid(later);
    if later.seal.Some? {
      if later.seal.value == SealOf(Base(later)) {
        assert later.seal.value == Seal(|Base(later).records|, HeadAt(Base(later).records, |Base(later).records|));
      } else {
        var n := |Base(later).records| - 1;
        assert LinkOk(Base(later).records, n);
        assert later.seal.value == Seal(n, HeadAt(Base(later).records, n));
      }
    }
  }

  ghost predicate HasPair(d: Disk) {
    d.journal.Whole? || (d.journal == Absent && d.ledger.Some? && d.seal.Some?)
  }

  lemma PairIsReportable(d: Disk)
    requires Sound(d) && Paired(d) && HasPair(d)
    ensures CourseOf(d, Aggregate).outcome == Done
  {
    if d.journal.Whole? {
      FinishKeeps(d);
    } else {
      OwnSeal(d.ledger.value);
    }
  }

  /** After any run, the pair that is on disk is one `aggregate` accepts, unless the journal is torn. */
  lemma AggregateAccepts(d: Disk, events: seq<Event>)
    requires Sound(d) && Paired(d)
    ensures HasPair(Run(d, events)) ==> CourseOf(Run(d, events), Aggregate).outcome == Done
  {
    RunKeeps(d, events);
    if HasPair(Run(d, events)) { PairIsReportable(Run(d, events)); }
  }

  // ----- Recovery

  ghost function Recoveries(d: Disk, powers: seq<nat>): Disk
    decreases |powers|
  {
    if powers == [] then d else Recoveries(AtPower(RecoverCourse(d), powers[0]), powers[1..])
  }

  /** While the journal is whole, a crashed recovery leaves one of the states of the same commit. */
  lemma {:induction false} CrashedRecoveries(d: Disk, powers: seq<nat>)
    requires Sound(d) && d.journal.Whole?
    ensures var later := Recoveries(d, powers);
      later == Committed(d.journal.t) || (Sound(later) && later.journal == d.journal)
    decreases |powers|
  {
    if powers != [] {
      FinishKeeps(d);
      var c := RecoverCourse(d);
      var d1 := AtPower(c, powers[0]);
      assert Keeps(d, d1);
      if d1.journal == d.journal {
        CrashedRecoveries(d1, powers[1..]);
      } else {
        assert d1 == Last(c);
        RecoveriesWhenAbsent(d1, powers[1..]);
      }
    }
  }

  lemma {:induction false} RecoveriesWhenAbsent(d: Disk, powers: seq<nat>)
    requires d.journal == Absent
    ensures Recoveries(d, powers) == d
    decreases |powers|
  {
    if powers != [] { RecoveriesWhenAbsent(d, powers[1..]); }
  }

  /** Any number of crashed recoveries, then one that survives three writes, completes the journalled commit;
      without a whole journal recovery changes nothing. */
  lemma RecoveryCompletes(d: Disk, powers: seq<nat>, last: nat)
    requires Sound(d)
    ensures var end := AtPower(RecoverCourse(Recoveries(d, powers)), last);
      && (d.journal.Whole? && last >= 3 ==> end == Committed(d.journal.t))
      && (!d.journal.Whole? ==> end == d)
  {
    if d.journal.Whole? {
      CrashedRecoveries(d, powers);
      var later := Recoveries(d, powers);
      if later.journal.Whole? { FinishKeeps(later); }
    } else {
      RecoveriesWithoutJournal(d, powers);
    }
  }

  lemma {:induction false} RecoveriesWithoutJournal(d: Disk, powers: seq<nat>)
    requires !d.journal.Whole?
    ensures Recoveries(d, powers) == d
    decreases |powers|
  {
    if powers != [] { RecoveriesWithoutJournal(d, powers[1..]); }
  }

  // ----- Retrying a crashed collect

  /** The journalled state a collect reaches once it has recovered and prepared the append. */
  ghost function CollectJournalled(d: Disk, sample: Sample, expected: Expected): Disk
    requires Prepared(Last(RecoverCourse(d)), sample, expected).Ok?
  {
    var before := Last(RecoverCourse(d));
    Journalled(before, Prepared(before, sample, expected).value)
  }

  /** The shape of a collect that goes through: recovery, a torn journal, the whole journal, the rest of the commit. */
  lemma CollectShape(d: Disk, sample: Sample, expected: Expected)
    requires Sound(d) && CourseOf(d, Collect(sample, expected)).outcome == Done
    ensures Prepared(Last(RecoverCourse(d)), sample, expected).Ok?
    ensures var r := RecoverCourse(d); var whole := CollectJournalled(d, sample, expected);
      && r.outcome == Done && Sound(Last(r)) && Last(r).journal == Absent && Sound(whole) && whole.journal.Whole?
      && CourseOf(d, Collect(sample, expected)).states ==
         r.states + [Last(r).(journal := Torn)] + FinishCourse(whole, whole.journal.t).states
  {
    RecoverKeeps(d);
    var r := RecoverCourse(d);
    assert Keeps(d, r.states[|r.states| - 1]);
    JournalledSound(Last(r), sample, expected);
    var whole := CollectJournalled(d, sample, expected);
    var finish := FinishCourse(whole, whole.journal.t).states;
    assert AppendCourse(Last(r), sample, expected).states == [Last(r), Last(r).(journal := Torn)] + finish;
    assert ([Last(r), Last(r).(journal := Torn)] + finish)[1..] == [Last(r).(journal := Torn)] + finish;
    assert r.states + ([Last(r).(journal := Torn)] + finish) == r.states + [Last(r).(journal := Torn)] + finish;
  }

  /** What a completed collect leaves: the sample appended, its own seal, no journal. */
  lemma CollectEnd(d: Disk, sample: Sample, expected: Expected)
    requires Sound(d) && CourseOf(d, Collect(sample, expected)).outcome == Done
    ensures var end := Last(CourseOf(d, Collect(sample, expected)));
      var next := Extended(Base(Last(RecoverCourse(d))), sample);
      && end == Disk(Some(next), Some(SealOf(next)), Absent) && Sound(end)
  {
    CollectShape(d, sample, expected);
    FinishKeeps(CollectJournalled(d, sample, expected));
  }

  lemma ThenLast(c: Course, next: Course)
    requires c.states != [] && next.states != [] && Last(c) == next.states[0]
    ensures Last(Then(c, next)) == Last(next)
    ensures |Then(c, next).states| == |c.states| + |next.states| - 1
  {}

  lemma AppendLength(d: Disk, sample: Sample, expected: Expected)
    requires Sound(d) && d.journal == Absent
    ensures |AppendCourse(d, sample, expected).states| <= 6
  {}

  lemma RecoverAgain(d: Disk, power: nat)
    requires Sound(d) && !d.journal.Torn? && power < |RecoverCourse(d).states|
    ensures var again := RecoverCourse(RecoverCourse(d).states[power]);
      again.outcome == Done && Last(again) == Last(RecoverCourse(d)) && |again.states| <= 4
  {
    var crashed := RecoverCourse(d).states[power];
    RecoverKeeps(d);
    assert Keeps(d, crashed);
    if d.journal.Whole? {
      FinishKeeps(d);
      if crashed.journal.Whole? { FinishKeeps(crashed); }
    }
  }

  /** A crash inside the recovery that precedes the append: the retry redoes it and goes on. */
  lemma RetryDuringRecovery(d: Disk, sample: Sample, expected: Expected, power: nat)
    requires Sound(d) && !d.journal.Torn? && power < |RecoverCourse(d).states|
    ensures var c := CourseOf(RecoverCourse(d).states[power], Collect(sample, expected));
      Last(c) == Last(CourseOf(d, Collect(sample, expected))) && |c.states| <= 9
  {
    var r := RecoverCourse(d);
    RecoverKeeps(d);
    assert Keeps(d, r.states[|r.states| - 1]);
    RecoverAgain(d, power);
    var again := RecoverCourse(r.states[power]);
    var rest := AppendCourse(Last(r), sample, expected);
    AppendLength(Last(r), sample, expected);
    ThenLast(r, rest);
    ThenLast(again, rest);
  }

  /** A crash once the journal is whole: the retry finishes the commit, then refuses the duplicate. */
  lemma RetryAfterJournal(crashed: Disk, t: Transaction, sample: Sample, expected: Expected)
    requires Sound(crashed) && (crashed.journal == Whole(t) || crashed == Committed(t))
    requires HasRun(t.next.records, Identity(sample))
    ensures var c := CourseOf(crashed, Collect(sample, expected)); Last(c) == Committed(t) && |c.states| <= 4
  {
    RecoverKeeps(crashed);
    if crashed.journal.Whole? { FinishKeeps(crashed); }
    var r := RecoverCourse(crashed);
    assert Last(r) == Committed(t);
    assert AppendCourse(Last(r), sample, expected).states == [Last(r)];
  }

  /** The states after the torn one all carry the whole journal, but the last. */
  lemma AfterTorn(d: Disk, sample: Sample, expected: Expected, i: nat)
    requires Sound(d) && CourseOf(d, Collect(sample, expected)).outcome == Done
    requires Prepared(Last(RecoverCourse(d)), sample, expected).Ok?
    requires |RecoverCourse(d).states| < i < |CourseOf(d, Collect(sample, expected)).states|
    ensures var c := CourseOf(d, Collect(sample, expected)); var t := CollectJournalled(d, sample, expected).journal.t;
      && Last(c) == Committed(t) && HasRun(t.next.records, Identity(sample))
      && Sound(c.states[i]) && (c.states[i].journal == Whole(t) || c.states[i] == Committed(t))
  {
    CollectShape(d, sample, expected);
    var whole := CollectJournalled(d, sample, expected);
    FinishKeeps(whole);
    var finish := FinishCourse(whole, whole.journal.t).states;
    var k := i - |RecoverCourse(d).states| - 1;
    assert CourseOf(d, Collect(sample, expected)).states[i] == finish[k];
    assert Keeps(whole, finish[k]);
    var next := whole.journal.t.next;
    assert Identity(next.records[|next.records| - 1].sample) == Identity(sample);
  }

  lemma EnoughPower(c: Course, p: nat)
    requires c.states != [] && |c.states| - 1 <= p
    ensures AtPower(c, p) == Last(c)
  {}

  // ----- Retrying again and again

  /** A collect from here, left to finish, ends in `goal`. */
  ghost predicate Heading(d: Disk, sample: Sample, expected: Expected, goal: Disk) {
    Sound(d) && !d.journal.Torn? && Last(CourseOf(d, Collect(sample, expected))) == goal
  }

  lemma RefusedAppendWritesNothing(d: Disk, sample: Sample, expected: Expected)
    requires Sound(d) && !d.journal.Torn? && CourseOf(d, Collect(sample, expected)).outcome != Done
    ensures CourseOf(d, Collect(sample, expected)).states == RecoverCourse(d).states
  {
    RecoverKeeps(d);
    var r := RecoverCourse(d);
    assert Keeps(d, r.states[|r.states| - 1]);
    if Prepared(Last(r), sample, expected).Ok? {
      JournalledSound(Last(r), sample, expected);
      FinishKeeps(Journalled(Last(r), Prepared(Last(r), sample, expected).value));
    }
    assert AppendCourse(Last(r), sample, expected).states == [Last(r)];
  }

  lemma CollectLength(d: Disk, sample: Sample, expected: Expected)
    requires Sound(d) && !d.journal.Torn?
    ensures |CourseOf(d, Collect(sample, expected)).states| <= 9
  {
    RecoverKeeps(d);
    var r := RecoverCourse(d);
    assert Keeps(d, r.states[|r.states| - 1]);
    if d.journal.Whole? { FinishKeeps(d); }
    AppendLength(Last(r), sample, expected);
  }

  /** The one state with a torn journal: recovered, and nothing appended yet. */
  lemma TornState(d: Disk, sample: Sample, expected: Expected)
    requires Sound(d) && CourseOf(d, Collect(sample, expected)).outcome == Done
    ensures var c, n := CourseOf(d, Collect(sample, expected)), |RecoverCourse(d).states|;
      && n < |c.states| && c.states[n] == Last(RecoverCourse(d)).(journal := Torn)
      && !HasRun(Base(c.states[n]).records, Identity(sample))
  {
    CollectShape(d, sample, expected);
    assert Base(Last(RecoverCourse(d)).(journal := Torn)) == Base(Last(RecoverCourse(d)));
  }

  /** The states of recovery are still on course. */
  lemma HeadingEarly(d: Disk, sample: Sample, expected: Expected, goal: Disk, at: nat)
    requires Heading(d, sample, expected, goal) && at < |RecoverCourse(d).states|
    ensures Heading(RecoverCourse(d).states[at], sample, expected, goal)
  {
    var r := RecoverCourse(d);
    RecoverKeeps(d);
    assert Keeps(d, r.states[at]);
    if d.journal.Whole? { FinishKeeps(d); }
    RetryDuringRecovery(d, sample, expected, at);
  }

  /** The states with the whole journal, and the last, are too. */
  lemma HeadingLate(d: Disk, sample: Sample, expected: Expected, goal: Disk, at: nat)
    requires Heading(d, sample, expected, goal) && CourseOf(d, Collect(sample, expected)).outcome == Done
    requires |RecoverCourse(d).states| < at < |CourseOf(d, Collect(sample, expected)).states|
    ensures Heading(CourseOf(d, Collect(sample, expected)).states[at], sample, expected, goal)
  {
    var c := CourseOf(d, Collect(sample, expected));
    CollectShape(d, sample, expected);
    AfterTorn(d, sample, expected, at);
    RetryAfterJournal(c.states[at], CollectJournalled(d, sample, expected).journal.t, sample, expected);
  }

  lemma CourseBegins(d: Disk, sample: Sample, expected: Expected, at: nat)
    requires Sound(d) && !d.journal.Torn? && at < |RecoverCourse(d).states|
    ensures at < |CourseOf(d, Collect(sample, expected)).states|
    ensures CourseOf(d, Collect(sample, expected)).states[at] == RecoverCourse(d).states[at]
  {
    RecoverKeeps(d);
  }

  ghost predicate OnCourse(d: Disk, sample: Sample, expected: Expected, goal: Disk) {
    if d.journal.Torn? then !HasRun(Base(d).records, Identity(sample)) else Heading(d, sample, expected, goal)
  }

  lemma HeadingAt(d: Disk, sample: Sample, expected: Expected, goal: Disk, at: nat)
    requires Heading(d, sample, expected, goal) && at < |CourseOf(d, Collect(sample, expected)).states|
    ensures OnCourse(CourseOf(d, Collect(sample, expected)).states[at], sample, expected, goal)
  {
    var n := |RecoverCourse(d).states|;
    if at < n {
      CourseBegins(d, sample, expected, at);
      HeadingEarly(d, sample, expected, goal, at);
    } else {
      if CourseOf(d, Collect(sample, expected)).outcome != Done { RefusedAppendWritesNothing(d, sample, expected); }
      if at == n { TornState(d, sample, expected); } else { HeadingLate(d, sample, expected, goal, at); }
    }
  }

  /** A further crashed attempt stays on course, or tears the journal before anything was appended. */
  lemma HeadingKept(d: Disk, sample: Sample, expected: Expected, goal: Disk, power: nat)
    requires Heading(d, sample, expected, goal)
    ensures OnCourse(AtPower(CourseOf(d, Collect(sample, expected)), power), sample, expected, goal)
  {
    HeadingAt(d, sample, expected, goal, Min(power, |CourseOf(d, Collect(sample, expected)).states| - 1));
  }

  lemma {:induction false} RetriesKeepHeading(d: Disk, sample: Sample, expected: Expected, goal: Disk,
                                              events: seq<Event>)
    requires Heading(d, sample, expected, goal)
    requires forall i | 0 <= i < |events| :: events[i].command == Collect(sample, expected)
    ensures OnCourse(Run(d, events), sample, expected, goal)
    decreases |events|
  {
    if events != [] {
      var d1 := Step(d, events[0]);
      HeadingKept(d, sample, expected, goal, events[0].power);
      if d1.journal.Torn? {
        TornBlocks(d1, events[1..]);
      } else {
        RetriesKeepHeading(d1, sample, expected, goal, events[1..]);
      }
    }
  }

  /** However many attempts of one collect crash, and wherever: if none tore the journal, the next attempt that
      survives eight writes ends in the state of an uninterrupted collect; if one did, the sample is not in the
      ledger and that attempt changes nothing. */
  lemma RetriesConverge(d: Disk, sample: Sample, expected: Expected, events: seq<Event>, enough: nat)
    requires Sound(d) && CourseOf(d, Collect(sample, expected)).outcome == Done && enough >= 8
    requires forall i | 0 <= i < |events| :: events[i].command == Collect(sample, expected)
    ensures var crashed := Run(d, events); var end := AtPower(CourseOf(crashed, Collect(sample, expected)), enough);
      && (end == Last(CourseOf(d, Collect(sample, expected))) <==> !crashed.journal.Torn?)
      && (crashed.journal.Torn? ==> end == crashed && !HasRun(Base(end).records, Identity(sample)))
  {
    var goal := Last(CourseOf(d, Collect(sample, expected)));
    var crashed := Run(d, events);
    RecoverKeeps(d);
    CollectEnd(d, sample, expected);
    RetriesKeepHeading(d, sample, expected, goal, events);
    if !crashed.journal.Torn? {
      CollectLength(crashed, sample, expected);
      EnoughPower(CourseOf(crashed, Collect(sample, expected)), enough);
    }
  }

  /** When an attempt tears the journal: at the one write that creates it. */
  lemma TearingWrite(d: Disk, sample: Sample, expected: Expected, power: nat)
    requires Sound(d) && CourseOf(d, Collect(sample, expected)).outcome == Done
    ensures AtPower(CourseOf(d, Collect(sample, expected)), power).journal.Torn? <==> power == |RecoverCourse(d).states|
  {
    var c, n := CourseOf(d, Collect(sample, expected)), |RecoverCourse(d).states|;
    CollectShape(d, sample, expected);
    if power < n {
      if d.journal.Whole? { FinishKeeps(d); }
    } else if power > n {
      AfterTorn(d, sample, expected, Min(power, |c.states| - 1));
    }
  }

  /** A torn journal blocks the ledger for good: no run changes it again. */
  lemma {:induction false} TornBlocks(d: Disk, events: seq<Event>)
    requires d.journal.Torn?
    ensures Run(d, events).ledger == d.ledger && Run(d, events).journal == Torn
    decreases |events|
  {
    if events != [] { TornBlocks(Step(d, events[0]), events[1..]); }
  }

  /** A collect goes through exactly when the journal is not torn and, after recovery, the append is acceptable. */
  lemma CollectGoesThrough(d: Disk, sample: Sample, expected: Expected)
    requires Sound(d)
    ensures CourseOf(d, Collect(sample, expected)).outcome == Done <==>
            !d.journal.Torn? && Prepared(Last(RecoverCourse(d)), sample, expected).Ok?
  {
    RecoverKeeps(d);
    var r := RecoverCourse(d);
    if !d.journal.Torn? && Prepared(Last(r), sample, expected).Ok? {
      assert Keeps(d, r.states[|r.states| - 1]);
      JournalledSound(Last(r), sample, expected);
      FinishKeeps(Journalled(Last(r), Prepared(Last(r), sample, expected).value));
    }
  }

  /** What the recovered ledger `b` and its seal output have to show against the expected seal. */
  ghost predicate ShowsSeal(expected: Expected, b: Ledger, output: Option<Seal>) {
    match expected
    case NoSeal => b.records == []
    case SealOutput => output == Some(Seal(|b.records|, HeadAt(b.records, |b.records|)))
    case OtherFile(content) => content == Some(Seal(|b.records|, HeadAt(b.records, |b.records|)))
  }

  lemma SealMatches(b: Ledger, s: Seal)
    requires ValidLedger(b)
    ensures Sealed(b, s) <==> s == Seal(|b.records|, HeadAt(b.records, |b.records|))
  {
    OwnSeal(b);
  }

  /** No collect goes through without that, whatever the seal output holds. */
  lemma CollectShowsSeal(d: Disk, sample: Sample, expected: Expected)
    requires Sound(d) && CourseOf(d, Collect(sample, expected)).outcome == Done
    ensures var after := Last(RecoverCourse(d)); ShowsSeal(expected, Base(after), after.seal)
  {
    var r := RecoverCourse(d);
    RecoverKeeps(d);
    assert Keeps(d, r.states[|r.states| - 1]);
    CollectGoesThrough(d, sample, expected);
    BaseValid(Last(r));
    if ReadExpected(Last(r), expected).value.Some? {
      SealMatches(Base(Last(r)), ReadExpected(Last(r), expected).value.value);
    }
  }

  /** On a pair that runs have kept together, a collect goes through exactly when the journal is not torn, the sample is
      valid and of a run the recovered ledger lacks, and the expected seal is that ledger's own. */
  lemma CollectAcceptance(d: Disk, sample: Sample, expected: Expected)
    requires Sound(d) && Paired(d)
    ensures var after := Last(RecoverCourse(d));
      CourseOf(d, Collect(sample, expected)).outcome == Done <==>
      && !d.journal.Torn? && ValidSample(sample) && !HasRun(Base(after).records, Identity(sample))
      && ShowsSeal(expected, Base(after), after.seal)
  {
    var r := RecoverCourse(d);
    RecoverKeeps(d);
    assert Keeps(d, r.states[|r.states| - 1]);
    CollectGoesThrough(d, sample, expected);
    BaseValid(Last(r));
    OwnSeal(Base(Last(r)));
    if ReadExpected(Last(r), expected).Ok? && ReadExpected(Last(r), expected).value.Some? {
      SealMatches(Base(Last(r)), ReadExpected(Last(r), expected).value.value);
    }
  }

  /** Against its own seal output a ledger can be appended to again and again: only the sample decides. */
  lemma CollectAgain(d: Disk, sample: Sample)
    requires Sound(d) && Paired(d) && d.journal == Absent && d.seal.Some?
    ensures CourseOf(d, Collect(sample, SealOutput)).outcome == Done <==>
            ValidSample(sample) && !HasRun(Base(d).records, Identity(sample))
  {
    CollectAcceptance(d, sample, SealOutput);
    BaseValid(d);
  }

  /** A ledger rolled back together with its own seal is refused against a seal kept elsewhere. */
  lemma RollbackRefused(d: Disk, sample: Sample, newer: Ledger)
    requires Sound(d) && ValidLedger(newer)
    requires |Base(Last(RecoverCourse(d))).records| < |newer.records|
    ensures CourseOf(d, Collect(sample, OtherFile(Some(SealOf(newer))))).outcome != Done
  {
    if CourseOf(d, Collect(sample, OtherFile(Some(SealOf(newer))))).outcome == Done {
      CollectShowsSeal(d, sample, OtherFile(Some(SealOf(newer))));
    }
  }

  /** A seal output that is not the ledger's own is never overwritten by a collect. */
  lemma ForeignOutputRefused(d: Disk, sample: Sample, expected: Expected)
    requires Sound(d) && d.journal == Absent && d.seal.Some? && d.seal.value != SealOf(Base(d))
    ensures CourseOf(d, Collect(sample, expected)).outcome != Done
    ensures CourseOf(d, Collect(sample, expected)).states == [d]
  {
    assert AppendCourse(d, sample, expected).states == [d];
  }

  /** `aggregate` reports exactly a pair that recovery leaves sealed. */
  lemma AggregateChecks(d: Disk)
    requires Sound(d)
    ensures var after := Last(RecoverCourse(d));
      CourseOf(d, Aggregate).outcome == Done <==>
      && !d.journal.Torn? && after.ledger.Some?
      && after.seal == Some(Seal(|Base(after).records|, HeadAt(Base(after).records, |Base(after).records|)))
  {
    var r := RecoverCourse(d);
    RecoverKeeps(d);
    assert Keeps(d, r.states[|r.states| - 1]);
    var after := Last(r);
    if after.ledger.Some? && after.seal.Some? { SealMatches(after.ledger.value, after.seal.value); }
  }

  /** What a file may hold for recovery to go on: what was there before the append, or what it leaves. */
  ghost predicate LedgerFits(ledger: Option<Ledger>, t: Transaction) {
    match ledger
    case None => !t.ledgerExisted
    case Some(l) => ValidLedger(l) && (l == t.next || (l.count == t.previous.count && l.head == t.previous.head))
  }

  ghost predicate SealFits(seal: Option<Seal>, t: Transaction) {
    match seal
    case None => !t.sealExisted
    case Some(s) => s == t.previous || s == t.nextSeal
  }

  /** On any disk at all, recovery goes on exactly when the journal is a valid transaction and both files fit it; a
      ledger or seal that does not is left as it is. */
  lemma RecoveryChecks(d: Disk, t: Transaction)
    requires d.journal == Whole(t)
    ensures RecoverCourse(d).outcome == Done <==> ValidTransaction(t) && LedgerFits(d.ledger, t) && SealFits(d.seal, t)
    ensures RecoverCourse(d).outcome != Done ==> RecoverCourse(d).states == [d]
    ensures RecoverCourse(d).outcome == Done ==> Last(RecoverCourse(d)) == Disk(Some(t.next), Some(t.nextSeal), Absent)
  {}

  /** The seal command writes one seal only, the one of the empty ledger. */
  lemma SealCommand(d: Disk)
    ensures var c := CourseOf(d, CreateSeal);
      && (c.outcome == Done <==> d.ledger == Some(EMPTY))
      && Last(c) == (if d.ledger == Some(EMPTY) then d.(seal := Some(Seal(0, Genesis))) else d)
  {}

  /** What happens to the first collect of an empty directory: it goes through, but a crash after its first write
      tears the journal, and then the retry and every later run leave the directory without a ledger. */
  ghost predicate FirstCollectStuck(sample: Sample, events: seq<Event>) {
    var start := Disk(None, None, Absent);
    var collect := Collect(sample, NoSeal);
    var crashed := Step(start, Event(collect, 1));
    && CourseOf(start, collect).outcome == Done
    && Last(CourseOf(start, collect)).ledger == Some(Extended(EMPTY, sample))
    && crashed == Disk(None, None, Torn)
    && (forall enough: nat :: AtPower(CourseOf(crashed, collect), enough) == crashed)
    && Run(crashed, events).ledger == None
  }

  lemma FirstCollectTorn(sample: Sample, events: seq<Event>)
    requires ValidSample(sample)
    ensures FirstCollectStuck(sample, events)
  {
    var start := Disk(None, None, Absent);
    FreshDirectory();
    assert Prepared(start, sample, NoSeal).Ok?;
    CollectGoesThrough(start, sample, NoSeal);
    CollectEnd(start, sample, NoSeal);
    CollectShape(start, sample, NoSeal);
    TornBlocks(Disk(None, None, Torn), events);
  }

  function FirstSample(): Sample {
    Sample("1", 1, Some(("1", 1)), ZeroHex(40), ZeroHex(40), "w", "refs/heads/main", "main", 0.0, 1.0, 3.0, 1.0, 2.0,
           "hit", "success", Baseline("o", "a", "i", "t"), false, None)
  }

  lemma FirstSampleValid()
    ensures ValidSample(FirstSample())
  {
    var sample := FirstSample();
    var b := sample.baseline;
    assert b.os[0] == 'o' && b.architecture[0] == 'a' && b.runnerImage[0] == 'i' && b.toolchain[0] == 't';
    assert sample.workflow[0] == 'w' && sample.ref[0] == 'r';
    assert CATEGORIES[2] == "main";
  }

  /** A retry that never converges: a concrete sample, collected into an empty directory, with one crash. */
  lemma RetryNeverConverges(events: seq<Event>)
    ensures FirstCollectStuck(FirstSample(), events)
  {
    FirstSampleValid();
    FirstCollectTorn(FirstSample(), events);
  }

  // ----- The ledger as an append-only list

  function Occurrences(records: seq<Record>, identity: (string, int)): set<nat> {
    set i: nat | i < |records| && Identity(records[i].sample) == identity
  }

  ghost predicate ExactlyOnce(d: Disk, sample: Sample) {
    exists n | 0 <= n < |Base(d).records| ::
      Base(d).records[n].sample == sample && Occurrences(Base(d).records, Identity(sample)) == {n}
  }

  /** A collect that reported success leaves its sample in the ledger exactly once, whatever runs and crashes follow. */
  lemma AcknowledgedForever(d: Disk, sample: Sample, expected: Expected, power: nat, events: seq<Event>)
    requires Sound(d)
    requires OutcomeAt(CourseOf(d, Collect(sample, expected)), power) == Done
    ensures var later := Run(Step(d, Event(Collect(sample, expected), power)), events);
      ExactlyOnce(later, sample)
  {
    CollectEnd(d, sample, expected);
    var end := Last(CourseOf(d, Collect(sample, expected)));
    assert Step(d, Event(Collect(sample, expected), power)) == end;
    RunKeeps(end, events);
    BaseValid(Run(end, events));
    OnlyOnce(Base(Run(end, events)).records, Base(end).records, sample);
  }

  /** A collect that crashed and was retried to its end leaves its sample in the ledger exactly once, whatever
      follows. */
  lemma RetriedExactlyOnce(d: Disk, sample: Sample, expected: Expected, events: seq<Event>, enough: nat,
                           after: seq<Event>)
    requires Sound(d) && CourseOf(d, Collect(sample, expected)).outcome == Done && enough >= 8
    requires forall i | 0 <= i < |events| :: events[i].command == Collect(sample, expected)
    requires !Run(d, events).journal.Torn?
    ensures var later := Run(Step(Run(d, events), Event(Collect(sample, expected), enough)), after);
      ExactlyOnce(later, sample)
  {
    RetriesConverge(d, sample, expected, events, enough);
    CollectEnd(d, sample, expected);
    var end := Last(CourseOf(d, Collect(sample, expected)));
    RunKeeps(end, after);
    BaseValid(Run(end, after));
    OnlyOnce(Base(Run(end, after)).records, Base(end).records, sample);
  }

  lemma OnlyOnce(later: seq<Record>, earlier: seq<Record>, sample: Sample)
    requires DistinctRuns(later) && earlier <= later && earlier != [] && earlier[|earlier| - 1].sample == sample
    ensures exists n | 0 <= n < |later| :: later[n].sample == sample && Occurrences(later, Identity(sample)) == {n}
  {}

  // ----- Every collect is all or nothing

  /** The journal still holds the transaction, or the ledger has what it appends. */
  ghost predicate Carries(d: Disk, t: Transaction) {
    d.journal == Whole(t) || t.next.records <= Base(d).records
  }

  ghost predicate AllCarry(states: seq<Disk>, t: Transaction) {
    forall i | 0 <= i < |states| :: Carries(states[i], t)
  }

  lemma ExtendedCarry(d: Disk, states: seq<Disk>, t: Transaction)
    requires t.next.records <= Base(d).records && AllKeep(d, states)
    ensures AllCarry(states, t)
  {
    forall i | 0 <= i < |states| ensures Carries(states[i], t) {
      assert Keeps(d, states[i]);
    }
  }

  lemma RecoveryCarries(d: Disk, t: Transaction)
    requires Sound(d) && d.journal == Whole(t)
    ensures AllCarry(RecoverCourse(d).states, t) && Last(RecoverCourse(d)) == Committed(t)
  {
    FinishKeeps(d);
    var states := RecoverCourse(d).states;
    forall i | 0 <= i < |states| ensures Carries(states[i], t) {
      if i == |states| - 1 { assert states[i] == Committed(t); }
    }
  }

  lemma CourseCarries(d: Disk, command: Command, t: Transaction)
    requires Sound(d) && Carries(d, t)
    ensures AllCarry(CourseOf(d, command).states, t)
  {
    if t.next.records <= Base(d).records {
      CourseKeeps(d, command);
      ExtendedCarry(d, CourseOf(d, command).states, t);
    } else if !command.CreateSeal? {
      RecoveryCarries(d, t);
      if command.Collect? { AppendCarries(d, command.sample, command.expected, t); }
    }
  }

  lemma AppendCarries(d: Disk, sample: Sample, expected: Expected, t: Transaction)
    requires Sound(d) && d.journal == Whole(t)
    ensures AllCarry(CourseOf(d, Collect(sample, expected)).states, t)
  {
    var r := RecoverCourse(d);
    RecoverKeeps(d);
    RecoveryCarries(d, t);
    assert Keeps(d, r.states[|r.states| - 1]);
    AppendKeeps(Last(r), sample, expected);
    var rest := AppendCourse(Last(r), sample, expected).states;
    ExtendedCarry(Last(r), rest, t);
    var states := CourseOf(d, Collect(sample, expected)).states;
    forall i | 0 <= i < |states| ensures Carries(states[i], t) {
      assert states[i] == if i < |r.states| then r.states[i] else rest[i - |r.states| + 1];
    }
  }

  lemma {:induction false} RunCarries(d: Disk, events: seq<Event>, t: Transaction)
    requires Sound(d) && Carries(d, t)
    ensures Carries(Run(d, events), t)
    decreases |events|
  {
    if events != [] {
      var d1 := Step(d, events[0]);
      CourseKeeps(d, events[0].command);
      assert Keeps(d, d1);
      CourseCarries(d, events[0].command, t);
      RunCarries(d1, events[1..], t);
    }
  }

  /** The ledger lacks the run, and no journal is about to add it. */
  ghost predicate Lacks(d: Disk, identity: (string, int)) {
    !HasRun(Base(d).records, identity) && (d.journal.Whole? ==> !HasRun(d.journal.t.next.records, identity))
  }

  ghost predicate AllLack(states: seq<Disk>, identity: (string, int)) {
    forall i | 0 <= i < |states| :: Lacks(states[i], identity)
  }

  lemma RecoveryLacks(d: Disk, identity: (string, int))
    requires Lacks(d, identity)
    ensures AllLack(RecoverCourse(d).states, identity)
  {}

  lemma AppendLacks(d: Disk, sample: Sample, expected: Expected, identity: (string, int))
    requires Sound(d) && d.journal == Absent && Lacks(d, identity) && Identity(sample) != identity
    ensures AllLack(AppendCourse(d, sample, expected).states, identity)
  {
    var p := Prepared(d, sample, expected);
    if p.Ok? {
      var whole := Journalled(d, p.value);
      JournalledSound(d, sample, expected);
      assert Lacks(whole, identity);
      RecoveryLacks(whole, identity);
      var states, finish := AppendCourse(d, sample, expected).states, RecoverCourse(whole).states;
      forall i | 0 <= i < |states| ensures Lacks(states[i], identity) {
        if i >= 2 { assert states[i] == finish[i - 2]; }
      }
    }
  }

  lemma CourseLacks(d: Disk, command: Command, identity: (string, int))
    requires Sound(d) && Lacks(d, identity) && (command.Collect? ==> Identity(command.sample) != identity)
    ensures AllLack(CourseOf(d, command).states, identity)
  {
    RecoveryLacks(d, identity);
    RecoverKeeps(d);
    if command.Collect? && !d.journal.Torn? {
      var r := RecoverCourse(d);
      assert Keeps(d, r.states[|r.states| - 1]);
      AppendLacks(Last(r), command.sample, command.expected, identity);
      var rest := AppendCourse(Last(r), command.sample, command.expected).states;
      var states := CourseOf(d, command).states;
      forall i | 0 <= i < |states| ensures Lacks(states[i], identity) {
        assert states[i] == if i < |r.states| then r.states[i] else rest[i - |r.states| + 1];
      }
    }
  }

  ghost predicate NoneCollects(events: seq<Event>, identity: (string, int)) {
    forall i | 0 <= i < |events| && events[i].command.Collect? :: Identity(events[i].command.sample) != identity
  }

  lemma {:induction false} RunLacks(d: Disk, events: seq<Event>, identity: (string, int))
    requires Sound(d) && Lacks(d, identity) && NoneCollects(events, identity)
    ensures Lacks(Run(d, events), identity)
    decreases |events|
  {
    if events != [] {
      var d1 := Step(d, events[0]);
      CourseKeeps(d, events[0].command);
      assert Keeps(d, d1);
      CourseLacks(d, events[0].command, identity);
      RunLacks(d1, events[1..], identity);
    }
  }

  ghost predicate Appends(t: Transaction, sample: Sample) {
    t.next.records != [] && t.next.records[|t.next.records| - 1].sample == sample
  }

  ghost predicate CarriesSample(d: Disk, t: Transaction, sample: Sample) {
    Sound(d) && Carries(d, t) && Appends(t, sample)
  }

  lemma JournalAppends(d: Disk, sample: Sample, expected: Expected)
    requires Prepared(Last(RecoverCourse(d)), sample, expected).Ok?
    ensures Appends(CollectJournalled(d, sample, expected).journal.t, sample)
  {}

  /** A state past the write that completes the journal carries the attempt's transaction. */
  lemma CommittedAt(d: Disk, sample: Sample, expected: Expected, at: nat) returns (t: Transaction)
    requires Sound(d) && CourseOf(d, Collect(sample, expected)).outcome == Done
    requires |RecoverCourse(d).states| < at < |CourseOf(d, Collect(sample, expected)).states|
    ensures CarriesSample(CourseOf(d, Collect(sample, expected)).states[at], t, sample)
  {
    CollectGoesThrough(d, sample, expected);
    AfterTorn(d, sample, expected, at);
    JournalAppends(d, sample, expected);
    t := CollectJournalled(d, sample, expected).journal.t;
  }

  lemma CommittedCarries(d: Disk, sample: Sample, expected: Expected, power: nat) returns (t: Transaction)
    requires Sound(d) && CourseOf(d, Collect(sample, expected)).outcome == Done && power > |RecoverCourse(d).states|
    ensures CarriesSample(Step(d, Event(Collect(sample, expected), power)), t, sample)
  {
    var c := CourseOf(d, Collect(sample, expected));
    CollectLonger(d, sample, expected);
    t := CommittedAt(d, sample, expected, Min(power, |c.states| - 1));
    assert Step(d, Event(Collect(sample, expected), power)) == c.states[Min(power, |c.states| - 1)];
  }

  /** A collect that goes through passes at least the torn and one whole state after recovery. */
  lemma CollectLonger(d: Disk, sample: Sample, expected: Expected)
    requires Sound(d) && CourseOf(d, Collect(sample, expected)).outcome == Done
    ensures |RecoverCourse(d).states| + 1 < |CourseOf(d, Collect(sample, expected)).states|
  {
    CollectShape(d, sample, expected);
  }

  /** What recovery leaves lacks the run, and so does everything on the way there. */
  lemma RecoveryBeforeLacks(d: Disk, sample: Sample, expected: Expected)
    requires Sound(d) && CourseOf(d, Collect(sample, expected)).outcome == Done
    ensures AllLack(RecoverCourse(d).states, Identity(sample))
  {
    var r := RecoverCourse(d);
    CollectGoesThrough(d, sample, expected);
    RecoverKeeps(d);
    assert Keeps(d, r.states[|r.states| - 1]);
    if d.journal.Whole? { FinishKeeps(d); }
    RecoveryLacks(d, Identity(sample));
  }

  /** Up to the write that creates the journal, nothing of the attempt is on the disk. */
  lemma UncommittedLacks(d: Disk, sample: Sample, expected: Expected, power: nat)
    requires Sound(d) && CourseOf(d, Collect(sample, expected)).outcome == Done && power <= |RecoverCourse(d).states|
    ensures Sound(Step(d, Event(Collect(sample, expected), power)))
    ensures Lacks(Step(d, Event(Collect(sample, expected), power)), Identity(sample))
  {
    CourseKeeps(d, Collect(sample, expected));
    TornState(d, sample, expected);
    assert Keeps(d, CourseOf(d, Collect(sample, expected)).states[power]);
    if power < |RecoverCourse(d).states| {
      RecoveryBeforeLacks(d, sample, expected);
      CollectGoesThrough(d, sample, expected);
      CourseBegins(d, sample, expected, power);
    }
  }

  lemma CarriedOnce(d: Disk, t: Transaction, sample: Sample)
    requires Sound(d) && t.next.records <= Base(d).records
    requires Appends(t, sample)
    ensures ExactlyOnce(d, sample)
  {
    BaseValid(d);
    OnlyOnce(Base(d).records, t.next.records, sample);
  }

  /** A collect that crashed is all or nothing, whatever commands run afterwards and crash in turn. Past the write that
      completes the journal, its sample is in the ledger exactly once, or the journal still waits to put it there. Up to
      the write before, the sample is not in the ledger, and stays out of it until it is collected again. */
  lemma CollectIsAtomic(d: Disk, sample: Sample, expected: Expected, power: nat, events: seq<Event>)
    requires Sound(d) && CourseOf(d, Collect(sample, expected)).outcome == Done
    ensures var crashed := Step(d, Event(Collect(sample, expected), power)); var later := Run(crashed, events);
      if power > |RecoverCourse(d).states|
      then ExactlyOnce(later, sample) || (crashed.journal.Whole? && later.journal == crashed.journal)
      else NoneCollects(events, Identity(sample)) ==> !HasRun(Base(later).records, Identity(sample))
  {
    var crashed := Step(d, Event(Collect(sample, expected), power));
    if power > |RecoverCourse(d).states| {
      var t := CommittedCarries(d, sample, expected, power);
      RunKeeps(crashed, events);
      RunCarries(crashed, events, t);
      assert t.next.records <= Base(crashed).records ==> t.next.records <= Base(Run(crashed, events)).records;
      if t.next.records <= Base(Run(crashed, events)).records { CarriedOnce(Run(crashed, events), t, sample); }
    } else {
      UncommittedLacks(d, sample, expected, power);
      if NoneCollects(events, Identity(sample)) { RunLacks(crashed, events, Identity(sample)); }
    }
  }

  lemma CommittedSound(t: Transaction)
    requires ValidTransaction(t)
    ensures Sound(Committed(t))
  {}

  /** From a committed state on, a collect only adds. */
  lemma AfterCommit(d: Disk, t: Transaction, sample: Sample, expected: Expected, at: nat)
    requires Sound(d) && d.journal == Whole(t)
    requires |RecoverCourse(d).states| - 1 <= at < |CourseOf(d, Collect(sample, expected)).states|
    ensures t.next.records <= Base(CourseOf(d, Collect(sample, expected)).states[at]).records
  {
    var r := RecoverCourse(d);
    FinishKeeps(d);
    CommittedSound(t);
    AppendKeeps(Committed(t), sample, expected);
    var rest := AppendCourse(Committed(t), sample, expected).states;
    var k := at - (|r.states| - 1);
    assert CourseOf(d, Collect(sample, expected)).states[at] == rest[k];
    assert Keeps(Committed(t), rest[k]);
  }

  lemma CollectCommits(d: Disk, t: Transaction, sample: Sample, expected: Expected, power: nat)
    requires Sound(d) && d.journal == Whole(t) && power >= 3
    ensures t.next.records <= Base(AtPower(CourseOf(d, Collect(sample, expected)), power)).records
  {
    FinishKeeps(d);
    var r := RecoverCourse(d);
    CourseBegins(d, sample, expected, |r.states| - 1);
    AfterCommit(d, t, sample, expected, Min(power, |CourseOf(d, Collect(sample, expected)).states| - 1));
  }

  lemma RecoveryCommits(d: Disk, t: Transaction, e: Event)
    requires Sound(d) && d.journal == Whole(t) && e.power >= 3 && !e.command.CreateSeal?
    ensures t.next.records <= Base(Step(d, e)).records
  {
    if e.command.Collect? {
      CollectCommits(d, t, e.command.sample, e.command.expected, e.power);
    } else {
      FinishKeeps(d);
    }
  }

  lemma NextRecoveryCommits(d: Disk, t: Transaction, e: Event)
    requires Sound(d) && Carries(d, t) && e.power >= 3 && !e.command.CreateSeal?
    ensures Sound(Step(d, e)) && t.next.records <= Base(Step(d, e)).records
  {
    var states := CourseOf(d, e.command).states;
    CourseKeeps(d, e.command);
    assert Keeps(d, states[Min(e.power, |states| - 1)]);
    if d.journal == Whole(t) { RecoveryCommits(d, t, e); }
  }

  /** Past that write, one later collect or aggregate that survives three writes leaves the sample in the ledger exactly
      once, whatever ran in between and whatever follows. */
  lemma CommittedExactlyOnce(d: Disk, sample: Sample, expected: Expected, power: nat,
                             between: seq<Event>, e: Event, after: seq<Event>)
    requires Sound(d) && CourseOf(d, Collect(sample, expected)).outcome == Done && power > |RecoverCourse(d).states|
    requires e.power >= 3 && !e.command.CreateSeal?
    ensures var crashed := Step(d, Event(Collect(sample, expected), power));
      ExactlyOnce(Run(Step(Run(crashed, between), e), after), sample)
  {
    var crashed := Step(d, Event(Collect(sample, expected), power));
    var t := CommittedCarries(d, sample, expected, power);
    RunKeeps(crashed, between);
    RunCarries(crashed, between, t);
    NextRecoveryCommits(Run(crashed, between), t, e);
    RunKeeps(Step(Run(crashed, between), e), after);
    CarriedOnce(Run(Step(Run(crashed, between), e), after), t, sample);
  }

  /** A collect that was interrupted anywhere, any run, and a retry of it: if the interrupted attempt got past that
      write, or else if the retry reports success, the sample is in the ledger exactly once, whatever follows. */
  lemma InterruptedExactlyOnce(d: Disk, sample: Sample, expected: Expected, power: nat, between: seq<Event>,
                               again: Expected, enough: nat, after: seq<Event>)
    requires Sound(d) && CourseOf(d, Collect(sample, expected)).outcome == Done && enough >= 3
    requires var later := Run(Step(d, Event(Collect(sample, expected), power)), between);
      power > |RecoverCourse(d).states| || OutcomeAt(CourseOf(later, Collect(sample, again)), enough) == Done
    ensures var later := Run(Step(d, Event(Collect(sample, expected), power)), between);
      ExactlyOnce(Run(Step(later, Event(Collect(sample, again), enough)), after), sample)
  {
    if power > |RecoverCourse(d).states| {
      CommittedExactlyOnce(d, sample, expected, power, between, Event(Collect(sample, again), enough), after);
    } else {
      var first := Event(Collect(sample, expected), power);
      RunKeeps(d, [first] + between);
      assert ([first] + between)[1..] == between;
      AcknowledgedForever(Run(Step(d, first), between), sample, again, enough, after);
    }
  }
}
