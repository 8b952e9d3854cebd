/** The write-ahead journal that makes the ledger/seal pair crash-safe.

    A durable write is one step. A command is described by the sequence of disk states its durable
    writes pass through; a crash may leave the disk in any of them. */
module LatencyJournal {
  import opened Prelude
  import opened LatencyLedger

  datatype Transaction = Transaction(
    ledgerExisted: bool, sealExisted: bool, previous: Seal, next: Ledger, nextSeal: Seal)

  /** `Torn`: the exclusive file was created, but its JSON is not complete. */
  datatype Journal = Absent | Torn | Whole(t: Transaction)

  datatype Disk = Disk(ledger: Option<Ledger>, seal: Option<Seal>, journal: Journal)

  /** Where `--expected-seal` points: nowhere, at the seal output itself, or at some other file. */
  datatype Expected = NoSeal | SealOutput | OtherFile(content: Option<Seal>)

  datatype Command = Collect(sample: Sample, expected: Expected) | Aggregate | CreateSeal

  datatype Outcome = Done | Refused | Crashed

  /** The disk states a command passes through, first the one it starts in, and how it ends. */
  datatype Course = Course(states: seq<Disk>, outcome: Outcome)

  // ----- What the script decides

  function Base(d: Disk): Ledger { if d.ledger.Some? then d.ledger.value else EMPTY }

  ghost predicate ValidTransaction(t: Transaction) {
    && ValidSeal(t.previous) && ValidLedger(t.next) && Sealed(t.next, t.nextSeal)
    && t.next.count == t.previous.count + 1
    && t.next.records[|t.next.records| - 1].previous == t.previous.head
  }

  ghost predicate LedgerIsOld(d: Disk, t: Transaction) {
    if d.ledger.None? then !t.ledgerExisted
    else ValidLedger(d.ledger.value) && SealOf(d.ledger.value) == t.previous
  }

  predicate LedgerIsNew(d: Disk, t: Transaction) { d.ledger == Some(t.next) }

  predicate SealIsOld(d: Disk, t: Transaction) {
    if d.seal.None? then !t.sealExisted else d.seal.value == t.previous
  }

  predicate SealIsNew(d: Disk, t: Transaction) { d.seal == Some(t.nextSeal) }

  ghost predicate Resumable(d: Disk, t: Transaction) {
    && (d.ledger.Some? ==> ValidLedger(d.ledger.value))
    && (LedgerIsOld(d, t) || LedgerIsNew(d, t)) && (SealIsOld(d, t) || SealIsNew(d, t))
  }

  function Committed(t: Transaction): Disk { Disk(Some(t.next), Some(t.nextSeal), Absent) }

  ghost function FinishCourse(d: Disk, t: Transaction): (c: Course)
    ensures c.states != [] && c.states[0] == d && !c.outcome.Crashed?
  {
    if !Resumable(d, t) then Course([d], Refused)
    else
      var afterLedger := if LedgerIsOld(d, t) then d.(ledger := Some(t.next)) else d;
      var afterSeal := if SealIsOld(d, t) then afterLedger.(seal := Some(t.nextSeal)) else afterLedger;
      Course([d] + (if LedgerIsOld(d, t) then [afterLedger] else [])
                 + (if SealIsOld(d, t) then [afterSeal] else [])
                 + [afterSeal.(journal := Absent)], Done)
  }

  ghost function RecoverCourse(d: Disk): (c: Course)
    ensures c.states != [] && c.states[0] == d && !c.outcome.Crashed?
  {
    match d.journal
    case Absent => Course([d], Done)
    case Torn => Course([d], Refused)
    case Whole(t) => if ValidTransaction(t) then FinishCourse(d, t) else Course([d], Refused)
  }

  function ReadExpected(d: Disk, e: Expected): Result<Option<Seal>> {
    match e
    case NoSeal => Ok(None)
    case SealOutput => if d.seal.Some? then Ok(d.seal) else Err
    case OtherFile(content) => if content.Some? then Ok(content) else Err
  }

  /** The appended ledger `collect` will commit on a disk without a journal. */
  ghost function Prepared(d: Disk, sample: Sample, expected: Expected): Result<Ledger> {
    if ReadExpected(d, expected).Ok? && MayAppend(Base(d), sample, ReadExpected(d, expected).value)
       && (d.seal.Some? ==> d.seal.value == SealOf(Base(d)))
    then Ok(Extended(Base(d), sample))
    else Err
  }

  function TransactionFor(d: Disk, next: Ledger): Transaction {
    Transaction(d.ledger.Some?, d.seal.Some?, SealOf(Base(d)), next, SealOf(next))
  }

  /** Journal created, journal complete, then the two replacements and the removal. */
  ghost function CommitCourse(d: Disk, next: Ledger): (c: Course)
    ensures c.states != [] && c.states[0] == d && !c.outcome.Crashed?
  {
    var t := TransactionFor(d, next);
    if d.journal != Absent || !ValidTransaction(t) then Course([d], Refused)
    else
      var finish := FinishCourse(d.(journal := Whole(t)), t);
      Course([d, d.(journal := Torn)] + finish.states, finish.outcome)
  }

  ghost function Then(c: Course, next: Course): (r: Course)
    requires c.states != [] && next.states != []
    requires c.states[|c.states| - 1] == next.states[0]
    ensures r.states != [] && r.states[0] == c.states[0]
  {
    Course(c.states + next.states[1..], next.outcome)
  }

  ghost function Last(c: Course): Disk
    requires c.states != []
  {
    c.states[|c.states| - 1]
  }

  ghost function AppendCourse(d: Disk, sample: Sample, expected: Expected): (c: Course)
    ensures c.states != [] && c.states[0] == d && !c.outcome.Crashed?
  {
    var p := Prepared(d, sample, expected);
    if p.Err? then Course([d], Refused) else CommitCourse(d, p.value)
  }

  /** What `aggregate` needs on the disk once it has recovered. */
  ghost predicate Reportable(d: Disk) {
    d.ledger.Some? && d.seal.Some? && ValidLedger(d.ledger.value) && Sealed(d.ledger.value, d.seal.value)
  }

  ghost function CourseOf(d: Disk, command: Command): (c: Course)
    ensures c.states != [] && c.states[0] == d && !c.outcome.Crashed?
  {
    match command
    case Aggregate =>
      var r := RecoverCourse(d);
      if r.outcome == Done && !Reportable(Last(r)) then Course(r.states, Refused) else r
    case CreateSeal =>
      if d.ledger.Some? && ValidLedger(d.ledger.value) && d.ledger.value.count == 0
      then Course([d, d.(seal := Some(SealOf(d.ledger.value)))], Done)
      else Course([d], Refused)
    case Collect(sample, expected) =>
      var r := RecoverCourse(d);
      if r.outcome == Refused then r else Then(r, AppendCourse(Last(r), sample, expected))
  }

  /** The disk a command leaves when the machine survives `power` of its durable writes. */
  ghost function AtPower(c: Course, power: nat): Disk
    requires c.states != []
  {
    c.states[Min(power, |c.states| - 1)]
  }

  ghost function OutcomeAt(c: Course, power: nat): Outcome {
    if power < |c.states| - 1 then Crashed else c.outcome
  }

  // ----- The program, on a disk that loses power after `power` more durable writes

  class Machine {
    var ledger: Option<Ledger>
    var seal: Option<Seal>
    var journal: Journal
    var power: nat

    ghost function View(): Disk
      reads this
    {
      Disk(ledger, seal, journal)
    }

    /** What is on disk and in hand after running course `c` with power `p`, to its end or to the crash. */
    ghost predicate Ran(c: Course, p: nat, outcome: Outcome)
      reads this
      requires c.states != []
    {
      && View() == AtPower(c, p) && outcome == OutcomeAt(c, p)
      && power == Max(0, p - (|c.states| - 1))
    }

    constructor (d: Disk, power: nat)
      ensures View() == d && this.power == power
    {
      ledger, seal, journal := d.ledger, d.seal, d.journal;
      this.power := power;
    }

    /** One durable write, unless the power is gone. */
    method Write(d: Disk) returns (alive: bool)
      modifies this
      ensures alive <==> old(power) > 0
      ensures View() == if alive then d else old(View())
      ensures power == Max(0, old(power) - 1)
    {
      alive := power > 0;
      if alive {
        ledger, seal, journal := d.ledger, d.seal, d.journal;
        power := power - 1;
      }
    }

    method FinishTransaction(t: Transaction) returns (outcome: Outcome)
      modifies this
      ensures Ran(FinishCourse(old(View()), t), old(power), outcome)
    {
      var ledgerIsOld, sealIsOld;
      if ledger.None? {
        ledgerIsOld := !t.ledgerExisted;
      } else {
        var valid := ValidateLedger(ledger.value);
        if !valid { return Refused; }
        ledgerIsOld := ledger.value.count == t.previous.count && ledger.value.head == t.previous.head;
      }
      var ledgerIsNew := ledger == Some(t.next);
      if seal.None? {
        sealIsOld := !t.sealExisted;
      } else {
        sealIsOld := seal.value == t.previous;
      }
      var sealIsNew := seal == Some(t.nextSeal);
      if !(ledgerIsOld || ledgerIsNew) || !(sealIsOld || sealIsNew) { return Refused; }
      var alive := true;
      if ledgerIsOld {
        alive := Write(Disk(Some(t.next), seal, journal));
        if !alive { return Crashed; }
      }
      if sealIsOld {
        alive := Write(Disk(ledger, Some(t.nextSeal), journal));
        if !alive { return Crashed; }
      }
      alive := Write(Disk(ledger, seal, Absent));
      return if alive then Done else Crashed;
    }

    method ValidateTransaction(t: Transaction) returns (ok: bool)
      ensures ok <==> ValidTransaction(t)
    {
      if !ValidSeal(t.previous) { return false; }
      var valid := ValidateLedger(t.next);
      if !valid || !Sealed(t.next, t.nextSeal) || t.next.count != t.previous.count + 1 { return false; }
      return t.next.records[|t.next.records| - 1].previous == t.previous.head;
    }

    method RecoverTransaction() returns (outcome: Outcome)
      modifies this
      ensures Ran(RecoverCourse(old(View())), old(power), outcome)
    {
      match journal
      case Absent => return Done;
      case Torn => return Refused;
      case Whole(t) =>
        var valid := ValidateTransaction(t);
        if !valid { return Refused; }
        outcome := FinishTransaction(t);
    }

    method CommitLedgerAndSeal(previous: Ledger, next: Ledger) returns (outcome: Outcome)
      requires ValidLedger(previous) && ValidLedger(next) && previous == Base(View())
      modifies this
      ensures Ran(if old(seal).Some? && old(seal).value != SealOf(previous) then Course([old(View())], Refused)
                  else CommitCourse(old(View()), next), old(power), outcome)
    {
      var previousSeal, nextSeal := SealOf(previous), SealOf(next);
      if seal.Some? && (!ValidSeal(seal.value) || seal.value != previousSeal) {
        OwnSeal(previous);
        return Refused;
      }
      ghost var start := View();
      var t := Transaction(ledger.Some?, seal.Some?, previousSeal, next, nextSeal);
      var valid := ValidateTransaction(t);
      if !valid || journal != Absent { return Refused; }
      var alive := Write(Disk(ledger, seal, Torn));
      if !alive { return Crashed; }
      alive := Write(Disk(ledger, seal, Whole(t)));
      if !alive { return Crashed; }
      outcome := FinishTransaction(t);
    }

    method AppendAndCommit(sample: Sample, expected: Expected) returns (outcome: Outcome)
      modifies this
      ensures Ran(AppendCourse(old(View()), sample, expected), old(power), outcome)
    {
      var current := if ledger.Some? then ledger.value else EMPTY;
      var valid := ValidateLedger(current);
      if !valid { return Refused; }
      if current.count > 0 && expected.NoSeal? { return Refused; }
      var read := ReadExpected(Disk(ledger, seal, journal), expected);
      if read.Err? { return Refused; }
      var updated := AppendSample(current, sample, read.value);
      if updated.Err? { return Refused; }
      outcome := CommitLedgerAndSeal(current, updated.value);
    }

    method RunCollect(sample: Sample, expected: Expected) returns (outcome: Outcome)
      modifies this
      ensures Ran(CourseOf(old(View()), Collect(sample, expected)), old(power), outcome)
    {
      ghost var recovery := RecoverCourse(View());
      ghost var rest := AppendCourse(Last(recovery), sample, expected);
      ThenAtPower(recovery, rest, power);
      outcome := RecoverTransaction();
      if outcome == Done {
        outcome := AppendAndCommit(sample, expected);
      }
    }

    method RunAggregate() returns (outcome: Outcome)
      modifies this
      ensures Ran(CourseOf(old(View()), Aggregate), old(power), outcome)
    {
      outcome := RecoverTransaction();
      if outcome == Done {
        if ledger.None? || seal.None? { return Refused; }
        var valid := ValidateLedger(ledger.value);
        return if valid && Sealed(ledger.value, seal.value) then Done else Refused;
      }
    }

    method RunCreateSeal() returns (outcome: Outcome)
      modifies this
      ensures Ran(CourseOf(old(View()), CreateSeal), old(power), outcome)
    {
      if ledger.None? { return Refused; }
      var valid := ValidateLedger(ledger.value);
      if !valid || ledger.value.count != 0 { return Refused; }
      var alive := Write(Disk(ledger, Some(SealOf(ledger.value)), journal));
      return if alive then Done else Crashed;
    }
  }

  /** Power left over from one course is spent on the next. */
  lemma ThenAtPower(c: Course, next: Course, p: nat)
    requires c.states != [] && next.states != [] && Last(c) == next.states[0]
    ensures var n := |c.states| - 1;
      && AtPower(Then(c, next), p) == (if p < n then AtPower(c, p) else AtPower(next, p - n))
      && OutcomeAt(Then(c, next), p) == (if p < n then Crashed else OutcomeAt(next, p - n))
  {}
}
