/** The verified process tree: a closure over an arbitrarily changing process table with PID reuse. */
module ProcessTree {
  import opened Prelude

  datatype ProcessInfo = ProcessInfo(pid: int, parentPid: int, startTime: string, command: string)

  /** One reading of the process table, keyed by pid. */
  type Rows = rows: map<int, ProcessInfo> | forall pid | pid in rows :: rows[pid].pid == pid witness map[]

  datatype Identity = Identity(startTime: string, command: string, depth: nat)

  type Known = map<int, Identity>

  /** What `host_path` and `allowed_root` fix: the accepted host commands, which commands lie inside the root, and
      which are the exact sidecar executable. */
  datatype Policy = Policy(rootPid: int, hostCommands: set<string>, inside: string -> bool,
                           exactSidecar: string -> bool)

  predicate RowMatches(rows: Rows, pid: int, identity: Identity) {
    pid in rows && rows[pid].startTime == identity.startTime && rows[pid].command == identity.command
  }

  /** No recorded process is there. */
  predicate NoneLive(known: Known, rows: Rows) { forall pid | pid in known :: !RowMatches(rows, pid, known[pid]) }

  // ----- The closure one observation computes

  /** A row the worklist may add: inside the root, and not in conflict with what is recorded for its pid. */
  predicate Admissible(policy: Policy, rows: Rows, known: Known, pid: int) {
    && pid in rows && policy.inside(rows[pid].command)
    && (pid in known ==> RowMatches(rows, pid, known[pid]))
  }

  ghost predicate Closed(policy: Policy, rows: Rows, known: Known, s: set<int>) {
    forall pid | Admissible(policy, rows, known, pid) && rows[pid].parentPid in s :: pid in s
  }

  ghost predicate ContainsSeed(seed: Known, s: set<int>) { seed.Keys <= s }

  /** The least set that contains the seed and is closed under admissible children, each new member one deeper than
      its parent. */
  ghost predicate IsClosure(policy: Policy, rows: Rows, known: Known, seed: Known, observed: Known) {
    && ContainsSeed(seed, observed.Keys) && Closed(policy, rows, known, observed.Keys)
    && Least(policy, rows, known, seed, observed.Keys) && Explained(policy, rows, known, seed, observed)
  }

  ghost predicate Least(policy: Policy, rows: Rows, known: Known, seed: Known, members: set<int>) {
    forall s | ContainsSeed(seed, s) && Closed(policy, rows, known, s) :: members <= s
  }

  ghost predicate Explained(policy: Policy, rows: Rows, known: Known, seed: Known, observed: Known)
    requires ContainsSeed(seed, observed.Keys)
  {
    && (forall pid | pid in seed :: observed[pid] == seed[pid])
    && (forall pid | pid in observed && pid !in seed :: IsChild(policy, rows, known, observed, pid))
  }

  ghost predicate IsChild(policy: Policy, rows: Rows, known: Known, observed: Known, pid: int)
    requires pid in observed
  {
    && Admissible(policy, rows, known, pid) && rows[pid].parentPid in observed
    && observed[pid] == Identity(rows[pid].startTime, rows[pid].command, observed[rows[pid].parentPid].depth + 1)
  }

  /** Members, identities and depths do not depend on the order of the worklist. */
  lemma ClosureUnique(policy: Policy, rows: Rows, known: Known, seed: Known, a: Known, b: Known)
    requires IsClosure(policy, rows, known, seed, a) && IsClosure(policy, rows, known, seed, b)
    ensures a == b
  {
    assert a.Keys == b.Keys;
    var same := set pid | pid in a && a[pid] == b[pid];
    forall pid | pid in seed.Keys ensures pid in same {
      assert pid in a.Keys;
    }
    assert ContainsSeed(seed, same);
    forall pid | Admissible(policy, rows, known, pid) && rows[pid].parentPid in same ensures pid in same {
      if pid !in seed {
        assert pid in a;
        assert IsChild(policy, rows, known, a, pid) && IsChild(policy, rows, known, b, pid);
      }
    }
    assert a.Keys <= same;
  }

  /** Every member hangs below the seed by a chain of parents, its depth the seed's plus the chain's length. */
  ghost predicate Ancestry(rows: Rows, seed: Known, observed: Known, chain: seq<int>) {
    && chain != [] && chain[0] in seed
    && (forall i | 0 < i < |chain| :: chain[i] in rows && rows[chain[i]].parentPid == chain[i - 1])
    && (forall i | 0 <= i < |chain| :: chain[i] in observed && observed[chain[i]].depth == seed[chain[0]].depth + i)
  }

  ghost predicate HasAncestry(rows: Rows, seed: Known, observed: Known, pid: int) {
    exists chain :: Ancestry(rows, seed, observed, chain) && chain[|chain| - 1] == pid
  }

  lemma ChainGrows(policy: Policy, rows: Rows, known: Known, seed: Known, observed: Known, pid: int)
    requires pid in observed && IsChild(policy, rows, known, observed, pid)
    requires HasAncestry(rows, seed, observed, rows[pid].parentPid)
    ensures HasAncestry(rows, seed, observed, pid)
  {
    var chain :| Ancestry(rows, seed, observed, chain) && chain[|chain| - 1] == rows[pid].parentPid;
    assert Ancestry(rows, seed, observed, chain + [pid]);
  }

  lemma ClosureHasAncestry(policy: Policy, rows: Rows, known: Known, seed: Known, observed: Known)
    requires IsClosure(policy, rows, known, seed, observed)
    ensures forall pid | pid in observed :: HasAncestry(rows, seed, observed, pid)
  {
    var rooted := set pid | pid in observed && HasAncestry(rows, seed, observed, pid);
    forall pid | pid in seed ensures pid in rooted {
      assert Ancestry(rows, seed, observed, [pid]);
    }
    assert ContainsSeed(seed, rooted);
    forall pid | Admissible(policy, rows, known, pid) && rows[pid].parentPid in rooted ensures pid in rooted {
      if pid !in seed { ChainGrows(policy, rows, known, seed, observed, pid); }
    }
    assert Closed(policy, rows, known, rooted);
    assert observed.Keys <= rooted;
  }

  // ----- What one observation starts from

  /** The live known processes, or before the first observation the verified host. `Err` when the host pid runs
      another command. */
  function Seed(policy: Policy, rows: Rows, known: Known): Result<Known> {
    if known != map[] then Ok(map pid | pid in known && RowMatches(rows, pid, known[pid]) :: known[pid])
    else if policy.rootPid !in rows then Ok(map[])
    else if rows[policy.rootPid].command !in policy.hostCommands then Err
    else Ok(map[policy.rootPid := Identity(rows[policy.rootPid].startTime, rows[policy.rootPid].command, 0)])
  }

  /** `later` keeps every recorded start time, command and depth. */
  ghost predicate Remembers(known: Known, later: Known) {
    forall pid | pid in known :: pid in later && later[pid] == known[pid]
  }

  /** A recorded pid is only ever observed under its recorded start time and command. */
  lemma ObservedMatches(policy: Policy, rows: Rows, known: Known, seed: Known, observed: Known)
    requires IsClosure(policy, rows, known, seed, observed)
    requires forall pid | pid in seed && pid in known :: RowMatches(rows, pid, known[pid])
    ensures forall pid | pid in observed && pid in known :: RowMatches(rows, pid, known[pid])
  {}

  lemma ClosureRemembers(policy: Policy, rows: Rows, known: Known, seed: Known, observed: Known)
    requires Seed(policy, rows, known) == Ok(seed) && IsClosure(policy, rows, known, seed, observed)
    ensures Remembers(known, known + observed)
  {}

  /** Recorded processes and, for each but the host, the recorded parent it was found under: a tree rooted at the
      host. */
  ghost predicate Anchored(policy: Policy, known: Known, parentOf: map<int, int>) {
    && (known != map[] ==> policy.rootPid in known)
    && (forall pid | pid in known :: known[pid].depth == 0 <==> pid == policy.rootPid)
    && (forall pid | pid in known && pid != policy.rootPid ::
          pid in parentOf && parentOf[pid] in known && known[pid].depth == known[parentOf[pid]].depth + 1)
  }

  /** The parents an observation records: of each newly observed process, its parent in the table. */
  ghost function Parents(rows: Rows, known: Known, observed: Known, parentOf: map<int, int>): map<int, int> {
    parentOf + map pid | pid in observed && pid !in known && pid in rows :: rows[pid].parentPid
  }

  /** A newly observed process other than the host hangs one below a process that is recorded with it. */
  lemma NewlyObserved(policy: Policy, rows: Rows, known: Known, seed: Known, observed: Known, pid: int)
    requires known != map[] ==> policy.rootPid in known
    requires Seed(policy, rows, known) == Ok(seed) && IsClosure(policy, rows, known, seed, observed)
    requires pid in observed && pid !in known
    ensures pid == policy.rootPid ==> observed[pid].depth == 0
    ensures pid != policy.rootPid ==>
              pid in rows && rows[pid].parentPid in observed
                && observed[pid].depth == observed[rows[pid].parentPid].depth + 1
  {}

  lemma EmptySeed(policy: Policy, rows: Rows, known: Known, observed: Known)
    requires IsClosure(policy, rows, known, map[], observed)
    ensures observed == map[]
  {
    assert ContainsSeed(map[], {}) && Closed(policy, rows, known, {});
    assert observed.Keys <= {};
  }

  lemma ObservationAnchored(policy: Policy, rows: Rows, known: Known, seed: Known, observed: Known,
                            parentOf: map<int, int>)
    requires Anchored(policy, known, parentOf)
    requires Seed(policy, rows, known) == Ok(seed) && IsClosure(policy, rows, known, seed, observed)
    ensures Anchored(policy, known + observed, Parents(rows, known, observed, parentOf))
  {
    var later, parents := known + observed, Parents(rows, known, observed, parentOf);
    ClosureRemembers(policy, rows, known, seed, observed);
    HostObserved(policy, rows, known, seed, observed);
    forall pid | pid in later
      ensures later[pid].depth == 0 <==> pid == policy.rootPid
      ensures pid != policy.rootPid ==>
                pid in parents && parents[pid] in later && later[pid].depth == later[parents[pid]].depth + 1
    {
      if pid !in known { NewlyObserved(policy, rows, known, seed, observed, pid); }
    }
  }

  lemma HostObserved(policy: Policy, rows: Rows, known: Known, seed: Known, observed: Known)
    requires known != map[] ==> policy.rootPid in known
    requires Seed(policy, rows, known) == Ok(seed) && IsClosure(policy, rows, known, seed, observed)
    ensures known + observed != map[] ==> policy.rootPid in known + observed
  {
    if seed == map[] { EmptySeed(policy, rows, known, observed); }
  }

  // ----- Whose processes are recorded

  /** A command the host may run, for the host's pid, or one inside the allowed root, for any other. */
  predicate MayRun(policy: Policy, pid: int, command: string) {
    if pid == policy.rootPid then command in policy.hostCommands else policy.inside(command)
  }

  ghost predicate Trusted(policy: Policy, known: Known) {
    forall pid | pid in known :: MayRun(policy, pid, known[pid].command)
  }

  /** The root pid runs something else than the host, and nothing is recorded yet. */
  predicate IsImpostor(policy: Policy, rows: Rows, known: Known) {
    known == map[] && policy.rootPid in rows && rows[policy.rootPid].command !in policy.hostCommands
  }

  lemma ObservedTrusted(policy: Policy, rows: Rows, known: Known, seed: Known, observed: Known, pid: int)
    requires Trusted(policy, known) && (known != map[] ==> policy.rootPid in known)
    requires Seed(policy, rows, known) == Ok(seed) && IsClosure(policy, rows, known, seed, observed)
    requires pid in observed
    ensures MayRun(policy, pid, observed[pid].command)
  {
    if pid !in seed {
      assert IsChild(policy, rows, known, observed, pid);
      if pid == policy.rootPid {
        if seed == map[] { EmptySeed(policy, rows, known, observed); }
      }
    }
  }

  /** Only commands the policy allows are ever recorded. */
  lemma ObservationTrusted(policy: Policy, rows: Rows, known: Known, seed: Known, observed: Known)
    requires Trusted(policy, known) && (known != map[] ==> policy.rootPid in known)
    requires Seed(policy, rows, known) == Ok(seed) && IsClosure(policy, rows, known, seed, observed)
    ensures Trusted(policy, known + observed)
  {
    forall pid | pid in known + observed ensures MayRun(policy, pid, (known + observed)[pid].command) {
      if pid in observed { ObservedTrusted(policy, rows, known, seed, observed, pid); }
    }
  }

  /** An observation is refused exactly when the root pid runs no host command while nothing is recorded. */
  lemma SeedRefused(policy: Policy, rows: Rows, known: Known)
    ensures Seed(policy, rows, known).Err? <==> IsImpostor(policy, rows, known)
  {}

  // ----- Runs of observations

  /** One observation under a table: refused and nothing recorded, or the closure recorded. */
  ghost predicate Observes(policy: Policy, rows: Rows, known: Known, later: Known) {
    match Seed(policy, rows, known)
    case Err => later == known
    case Ok(seed) => exists observed :: IsClosure(policy, rows, known, seed, observed) && later == known + observed
  }

  ghost predicate ObservationRun(policy: Policy, tables: seq<Rows>, states: seq<Known>) {
    |states| == |tables| + 1 && forall i | 0 <= i < |tables| :: Observes(policy, tables[i], states[i], states[i + 1])
  }

  lemma ObservationRemembers(policy: Policy, rows: Rows, known: Known, later: Known)
    requires Observes(policy, rows, known, later)
    ensures Remembers(known, later)
  {}

  lemma ObservationUnique(policy: Policy, rows: Rows, known: Known, a: Known, b: Known)
    requires Observes(policy, rows, known, a) && Observes(policy, rows, known, b)
    ensures a == b
  {
    var seed := Seed(policy, rows, known);
    if seed.Ok? {
      var x :| IsClosure(policy, rows, known, seed.value, x) && a == known + x;
      var y :| IsClosure(policy, rows, known, seed.value, y) && b == known + y;
      ClosureUnique(policy, rows, known, seed.value, x, y);
    }
  }

  /** For every sequence of tables: what was recorded once is never changed or forgotten. */
  lemma {:induction false} RunRemembers(policy: Policy, tables: seq<Rows>, states: seq<Known>, i: nat, j: nat)
    requires ObservationRun(policy, tables, states) && i <= j < |states|
    ensures Remembers(states[i], states[j])
    decreases j - i
  {
    if i < j {
      RunRemembers(policy, tables, states, i, j - 1);
      assert Observes(policy, tables[j - 1], states[j - 1], states[j - 1 + 1]);
      ObservationRemembers(policy, tables[j - 1], states[j - 1], states[j]);
    }
  }

  /** A run is determined by its first state and its tables. */
  lemma {:induction false} RunUnique(policy: Policy, tables: seq<Rows>, a: seq<Known>, b: seq<Known>, i: nat)
    requires ObservationRun(policy, tables, a) && ObservationRun(policy, tables, b) && a[0] == b[0] && i < |a|
    ensures a[i] == b[i]
  {
    if i > 0 {
      RunUnique(policy, tables, a, b, i - 1);
      assert Observes(policy, tables[i - 1], a[i - 1], a[i - 1 + 1])
             && Observes(policy, tables[i - 1], b[i - 1], b[i - 1 + 1]);
      ObservationUnique(policy, tables[i - 1], a[i - 1], a[i], b[i]);
    }
  }

  /** Every run from an empty record records host commands for the host and commands inside the root for all others. */
  lemma {:induction false} RunTrusted(policy: Policy, tables: seq<Rows>, states: seq<Known>, i: nat)
    requires ObservationRun(policy, tables, states) && states[0] == map[] && i < |states|
    ensures Trusted(policy, states[i]) && (states[i] != map[] ==> policy.rootPid in states[i])
  {
    if i > 0 {
      RunTrusted(policy, tables, states, i - 1);
      var rows, known := tables[i - 1], states[i - 1];
      assert Observes(policy, rows, known, states[i - 1 + 1]);
      var seed := Seed(policy, rows, known);
      if seed.Ok? {
        var observed :| IsClosure(policy, rows, known, seed.value, observed) && states[i] == known + observed;
        ObservationTrusted(policy, rows, known, seed.value, observed);
        HostObserved(policy, rows, known, seed.value, observed);
      }
    }
  }

  /** The pid reached by following recorded parents `n` times. */
  ghost function Ancestor(parentOf: map<int, int>, pid: int, n: nat): int
    decreases n
  {
    if n == 0 || pid !in parentOf then pid else Ancestor(parentOf, parentOf[pid], n - 1)
  }

  /** Every recorded process reaches the host in as many recorded steps as its depth. */
  lemma {:induction false} DescendsFromHost(policy: Policy, known: Known, parentOf: map<int, int>, pid: int)
    requires Anchored(policy, known, parentOf) && pid in known
    ensures Ancestor(parentOf, pid, known[pid].depth) == policy.rootPid
    decreases known[pid].depth
  {
    if known[pid].depth > 0 { DescendsFromHost(policy, known, parentOf, parentOf[pid]); }
  }

  // ----- Signals

  datatype Signal = Term | Kill

  /** A signal together with the table reading it was decided on. */
  datatype Sent = Sent(signal: Signal, pid: int, rows: Rows)

  /** The kernel: successive readings of the process table, and a log of the signals sent. */
  class Kernel {
    const readings: nat -> Rows
    var next: nat
    ghost var sent: seq<Sent>

    constructor (readings: nat -> Rows)
      ensures this.readings == readings && next == 0 && sent == []
    {
      this.readings, next, sent := readings, 0, [];
    }

    method ProcessTable() returns (rows: Rows)
      modifies this`next
      ensures rows == readings(old(next)) && next == old(next) + 1
    {
      rows := readings(next);
      next := next + 1;
    }

    /** `os.kill`; false when the process is already gone. */
    method Send(signal: Signal, pid: int, ghost rows: Rows) returns (delivered: bool)
      modifies this`sent
      ensures sent == old(sent) + [Sent(signal, pid, rows)]
    {
      sent := sent + [Sent(signal, pid, rows)];
      delivered := *;
    }
  }

  /** Every signal went to a recorded pid whose row, in a reading taken between `lo` and `hi`, carried the recorded
      identity. */
  ghost predicate Authorised(known: Known, kernel: Kernel, lo: nat, hi: nat, sent: seq<Sent>) {
    forall i | 0 <= i < |sent| :: AuthorisedOne(known, kernel, lo, hi, sent[i])
  }

  ghost predicate AuthorisedOne(known: Known, kernel: Kernel, lo: nat, hi: nat, s: Sent) {
    s.pid in known && RowMatches(s.rows, s.pid, known[s.pid])
      && exists k: nat | lo <= k < hi :: s.rows == kernel.readings(k)
  }

  /** Children are signalled before their ancestors. */
  ghost predicate DeepestFirst(known: Known, sent: seq<Sent>)
    requires forall s | s in sent :: s.pid in known
  {
    forall i, j | 0 <= i < j < |sent| :: known[sent[j].pid].depth <= known[sent[i].pid].depth
  }

  // ----- The worklist

  /** The loop's own account of the closure: `pending` holds the members whose children are still to be looked at. */
  ghost predicate Partial(policy: Policy, rows: Rows, known: Known, seed: Known, observed: Known, pending: set<int>) {
    && ContainsSeed(seed, observed.Keys) && pending <= observed.Keys
    && Least(policy, rows, known, seed, observed.Keys) && Explained(policy, rows, known, seed, observed)
    && Swept(policy, rows, known, observed.Keys, observed.Keys - pending)
  }

  /** The admissible children of `swept` are all members. */
  ghost predicate Swept(policy: Policy, rows: Rows, known: Known, members: set<int>, swept: set<int>) {
    forall pid | Admissible(policy, rows, known, pid) && rows[pid].parentPid in swept :: pid in members
  }

  method Pop<T>(s: set<T>) returns (x: T, rest: set<T>)
    requires s != {}
    ensures x in s && rest == s - {x}
  {
    x :| x in s;
    rest := s - {x};
  }

  method Close(policy: Policy, rows: Rows, known: Known, seed: Known) returns (observed: Known)
    ensures IsClosure(policy, rows, known, seed, observed)
  {
    observed := seed;
    var pending := seed.Keys;
    while pending != {}
      invariant Partial(policy, rows, known, seed, observed, pending)
      decreases |rows.Keys - observed.Keys|, |pending|
    {
      ghost var before, wasPending := observed, pending;
      var parent;
      parent, pending := Pop(pending);
      assert pending + {parent} == wasPending;
      observed, pending := AddChildren(policy, rows, known, seed, observed, pending, parent);
      if observed == before {
        assert pending < wasPending;
        SmallerSet(pending, wasPending);
      } else {
        assert rows.Keys - observed.Keys < rows.Keys - before.Keys;
        SmallerSet(rows.Keys - observed.Keys, rows.Keys - before.Keys);
      }
    }
  }

  lemma {:induction false} SmallerSet<T>(a: set<T>, b: set<T>)
    requires a < b
    ensures |a| < |b|
  {
    var x :| x in b && x !in a;
    if a == {} {
      assert |b - {x}| == |b| - 1;
    } else {
      var y :| y in a;
      SmallerSet(a - {y}, b - {y});
    }
  }

  /** Adding one admissible child of a member keeps the account. */
  lemma AddChild(policy: Policy, rows: Rows, known: Known, seed: Known, observed: Known, pending: set<int>, pid: int)
    requires Partial(policy, rows, known, seed, observed, pending)
    requires Admissible(policy, rows, known, pid) && pid !in observed && rows[pid].parentPid in observed
    ensures var row := rows[pid];
      Partial(policy, rows, known, seed,
              observed[pid := Identity(row.startTime, row.command, observed[row.parentPid].depth + 1)], pending + {pid})
  {}

  lemma AddChildBeside(policy: Policy, rows: Rows, known: Known, seed: Known, observed: Known, pending: set<int>,
                       parent: int, pid: int)
    requires Partial(policy, rows, known, seed, observed, pending + {parent})
    requires Admissible(policy, rows, known, pid) && pid !in observed && rows[pid].parentPid in observed
    ensures var row := rows[pid];
      Partial(policy, rows, known, seed,
              observed[pid := Identity(row.startTime, row.command, observed[row.parentPid].depth + 1)],
              (pending + {pid}) + {parent})
  {
    AddChild(policy, rows, known, seed, observed, pending + {parent}, pid);
    assert (pending + {parent}) + {pid} == (pending + {pid}) + {parent};
  }

  /** The test one row of the table gets: a child of `parent` that is not yet observed joins if admissible. */
  method ConsiderRow(policy: Policy, rows: Rows, known: Known, ghost seed: Known, start: Known, startPending: set<int>,
                     parent: int, pid: int)
    returns (observed: Known, pending: set<int>)
    requires pid in rows && Partial(policy, rows, known, seed, start, startPending + {parent})
    ensures Partial(policy, rows, known, seed, observed, pending + {parent})
    ensures parent in start
    ensures if rows[pid].parentPid == parent && pid !in start && Admissible(policy, rows, known, pid)
            then pending == startPending + {pid}
                 && observed == start[pid := Identity(rows[pid].startTime, rows[pid].command, start[parent].depth + 1)]
            else observed == start && pending == startPending
  {
    observed, pending := start, startPending;
    var row := rows[pid];
    if row.parentPid == parent && pid !in observed && policy.inside(row.command)
       && (pid !in known || (known[pid].startTime == row.startTime && known[pid].command == row.command)) {
      AddChildBeside(policy, rows, known, seed, observed, pending, parent, pid);
      observed := observed[pid := Identity(row.startTime, row.command, observed[parent].depth + 1)];
      pending := pending + {pid};
    }
  }

  /** One turn of the worklist: every admissible unobserved child of `parent` joins. */
  method AddChildren(policy: Policy, rows: Rows, known: Known, ghost seed: Known, start: Known, startPending: set<int>,
                     parent: int)
    returns (observed: Known, pending: set<int>)
    requires Partial(policy, rows, known, seed, start, startPending + {parent})
    ensures Partial(policy, rows, known, seed, observed, pending)
    ensures start.Keys <= observed.Keys
    ensures observed == start ==> pending <= startPending
    ensures observed != start ==> exists pid :: pid in rows.Keys && pid in observed.Keys && pid !in start.Keys
  {
    observed, pending := start, startPending;
    var rest := rows.Keys;
    while rest != {}
      invariant rest <= rows.Keys && start.Keys <= observed.Keys
      invariant Partial(policy, rows, known, seed, observed, pending + {parent})
      invariant forall pid | Admissible(policy, rows, known, pid) && rows[pid].parentPid == parent && pid !in rest ::
                  pid in observed.Keys
      invariant observed == start ==> pending == startPending
      invariant observed != start ==> exists pid :: pid in rows.Keys && pid in observed.Keys && pid !in start.Keys
      decreases |rest|
    {
      var pid;
      pid, rest := Pop(rest);
      observed, pending := ConsiderRow(policy, rows, known, seed, observed, pending, parent, pid);
    }
    SweepParent(policy, rows, known, observed.Keys, pending, parent);
  }

  lemma SweepParent(policy: Policy, rows: Rows, known: Known, members: set<int>, pending: set<int>, parent: int)
    requires Swept(policy, rows, known, members, members - (pending + {parent}))
    requires forall pid | Admissible(policy, rows, known, pid) && rows[pid].parentPid == parent :: pid in members
    ensures Swept(policy, rows, known, members, members - pending)
  {}

  // ----- The tracked tree

  /** A recorded process of depth 2 and its parent of depth 1 are live and run one and the same sidecar executable. */
  predicate IsLiveSidecar(policy: Policy, known: Known, rows: Rows, pid: int) {
    && pid in known && known[pid].depth == 2 && RowMatches(rows, pid, known[pid])
    && var parent := rows[pid].parentPid;
      && parent in known && known[parent].depth == 1 && RowMatches(rows, parent, known[parent])
      && rows[parent].command == rows[pid].command && policy.exactSidecar(rows[pid].command)
  }

  class VerifiedProcessTree {
    const policy: Policy
    const kernel: Kernel
    var known: Known
    ghost var parentOf: map<int, int>

    ghost predicate Valid()
      reads this
    {
      Anchored(policy, known, parentOf) && Trusted(policy, known)
    }

    constructor (policy: Policy, kernel: Kernel)
      ensures this.policy == policy && this.kernel == kernel && known == map[] && Valid()
    {
      this.policy, this.kernel, known, parentOf := policy, kernel, map[], map[];
    }

    /** One observation: the closure over the next table reading is recorded and listed without the host. Refused,
        with nothing recorded, when the host pid runs another command before anything was recorded. */
    method Observe() returns (r: Result<seq<ProcessInfo>>, ghost observed: Known)
      requires Valid()
      modifies this, kernel`next
      ensures Valid() && kernel.next == old(kernel.next) + 1
      ensures r.Err? <==> IsImpostor(policy, kernel.readings(old(kernel.next)), old(known))
      ensures var rows := kernel.readings(old(kernel.next));
        match Seed(policy, rows, old(known))
        case Err => r.Err? && known == old(known)
        case Ok(seed) =>
          && r.Ok? && IsClosure(policy, rows, old(known), seed, observed)
          && known == old(known) + observed && Remembers(old(known), known)
          && Lists(r.value, rows, observed.Keys - {policy.rootPid})
    {
      var rows := kernel.ProcessTable();
      var seed := Seed(policy, rows, known);
      observed := map[];
      SeedRefused(policy, rows, known);
      if seed.Err? { return Err, observed; }
      var members := Close(policy, rows, known, seed.value);
      observed := members;
      ClosureRemembers(policy, rows, known, seed.value, members);
      ObservationAnchored(policy, rows, known, seed.value, members, parentOf);
      ObservationTrusted(policy, rows, known, seed.value, members);
      ClosureIsLive(policy, rows, known, seed.value, members);
      parentOf := Parents(rows, known, members, parentOf);
      known := known + members;
      var listed := ListRows(rows, members.Keys - {policy.rootPid});
      return Ok(listed), observed;
    }

    /** A runtime-reported pid is believed exactly while it and its parent are live under their recorded identities;
        that parent is then recorded directly under the host. */
    method VerifiedSidecarPid(pid: int) returns (ok: bool)
      requires Valid()
      modifies kernel`next
      ensures ok <==> IsLiveSidecar(policy, known, kernel.readings(old(kernel.next)), pid)
      ensures ok ==>
        var parent := kernel.readings(old(kernel.next))[pid].parentPid;
        parent in parentOf && parentOf[parent] == policy.rootPid
      ensures ok ==> Ancestor(parentOf, pid, 2) == policy.rootPid
    {
      if pid == policy.rootPid || pid !in known || known[pid].depth != 2 { return false; }
      var rows := kernel.ProcessTable();
      if !RowMatches(rows, pid, known[pid]) || !policy.exactSidecar(rows[pid].command) { return false; }
      var parent := rows[pid].parentPid;
      if parent !in rows || parent !in known || known[parent].depth != 1 { return false; }
      DescendsFromHost(policy, known, parentOf, pid);
      return RowMatches(rows, parent, known[parent]) && rows[parent].command == rows[pid].command
             && policy.exactSidecar(rows[parent].command);
    }

    /** Stops one recorded process: SIGTERM if its current row matches, then SIGKILL if it still does at the
        deadline. */
    method Stop(pid: int) returns (ghost delivered: bool)
      requires Valid() && pid in known
      modifies kernel`next, kernel`sent
      ensures old(kernel.next) < kernel.next && old(kernel.sent) <= kernel.sent
      ensures var new_ := kernel.sent[|old(kernel.sent)|..];
        && |new_| <= 2
        && (forall i | 0 <= i < |new_| :: new_[i].pid == pid && new_[i].signal == (if i == 0 then Term else Kill))
        && Authorised(known, kernel, old(kernel.next), kernel.next, new_)
        && (new_ == [] <==> !RowMatches(kernel.readings(old(kernel.next)), pid, known[pid]))
        && (|new_| == 1 && delivered ==> !RowMatches(kernel.readings(kernel.next - 1), pid, known[pid]))
    {
      ghost var start, before := kernel.next, kernel.sent;
      delivered := false;
      var rows := kernel.ProcessTable();
      if !RowMatches(rows, pid, known[pid]) { return; }
      var terminated := kernel.Send(Term, pid, rows);
      delivered := terminated;
      ghost var first := Sent(Term, pid, rows);
      assert AuthorisedOne(known, kernel, start, kernel.next, first);
      if !terminated { return; }
      var polls: nat := *;
      while polls > 0
        invariant start < kernel.next && kernel.sent == before + [first]
      {
        rows := kernel.ProcessTable();
        if !RowMatches(rows, pid, known[pid]) {
          assert AuthorisedOne(known, kernel, start, kernel.next, first);
          return;
        }
        polls := polls - 1;
      }
      rows := kernel.ProcessTable();
      assert AuthorisedOne(known, kernel, start, kernel.next, first);
      if RowMatches(rows, pid, known[pid]) {
        var killed := kernel.Send(Kill, pid, rows);
        assert AuthorisedOne(known, kernel, start, kernel.next, Sent(Kill, pid, rows));
        assert kernel.sent == before + [first, Sent(Kill, pid, rows)];
      }
    }

    /** Stops every recorded process, deepest first, then reports whether any is left. Whatever the successive tables
        say, a signal only goes to a pid whose current row carries the recorded identity, and a recorded process goes
        without one only if its row did not match. */
    method Terminate() returns (r: Result<()>, ghost sent: seq<Sent>)
      requires Valid()
      modifies this, kernel`next, kernel`sent
      ensures Valid() && Remembers(old(known), known)
      ensures old(kernel.next) < kernel.next && kernel.sent == old(kernel.sent) + sent
      ensures Account(known, kernel, old(kernel.next), kernel.next, sent, {}) && AllMayRun(policy, sent)
      ensures r.Ok? <==> NoneLive(known, kernel.readings(kernel.next - 1))
    {
      ghost var lo := kernel.next;
      TryObserve();
      r, sent := StopAllAndVerify(lo);
      OnlyTrustedSignalled(policy, known, kernel, lo, kernel.next, sent);
    }

    /** An observation whose refusal is ignored: a reused host pid gives no authority to record anything. */
    method TryObserve()
      requires Valid()
      modifies this, kernel`next
      ensures Valid() && Remembers(old(known), known) && kernel.next == old(kernel.next) + 1
    {
      var _, _ := Observe();
    }

    method StopAllAndVerify(ghost lo: nat) returns (r: Result<()>, ghost sent: seq<Sent>)
      requires Valid() && lo <= kernel.next
      modifies kernel`next, kernel`sent
      ensures old(kernel.next) < kernel.next && kernel.sent == old(kernel.sent) + sent
      ensures Account(known, kernel, lo, kernel.next, sent, {})
      ensures r.Ok? <==> NoneLive(known, kernel.readings(kernel.next - 1))
    {
      ghost var start := kernel.next;
      sent := StopAll();
      AccountWider(known, kernel, start, kernel.next, lo, kernel.next + 1, sent);
      r := VerifyAbsent();
    }

    method StopAll() returns (ghost sent: seq<Sent>)
      requires Valid()
      modifies kernel`next, kernel`sent
      ensures old(kernel.next) <= kernel.next && kernel.sent == old(kernel.sent) + sent
      ensures Account(known, kernel, old(kernel.next), kernel.next, sent, {})
    {
      ghost var start, before := kernel.next, kernel.sent;
      sent := [];
      var rest := known.Keys;
      while rest != {}
        invariant rest <= known.Keys && start <= kernel.next && kernel.sent == before + sent
        invariant Account(known, kernel, start, kernel.next, sent, rest)
        decreases |rest|
      {
        DeepestExists(known, rest);
        var pid :| pid in rest && forall p | p in rest :: known[p].depth <= known[pid].depth;
        ghost var at, log := kernel.next, kernel.sent;
        ghost var _ := Stop(pid);
        ghost var new_ := kernel.sent[|log|..];
        StopKeeps(known, kernel, start, at, kernel.next, sent, new_, pid, rest);
        LogGrows(before, sent, log, kernel.sent);
        sent := sent + new_;
        rest := rest - {pid};
      }
    }

    /** `Err` exactly when a recorded process is still live in the reading. */
    method VerifyAbsent() returns (r: Result<()>)
      modifies kernel`next
      ensures kernel.next == old(kernel.next) + 1
      ensures r.Ok? <==> NoneLive(known, kernel.readings(old(kernel.next)))
    {
      var rows := kernel.ProcessTable();
      return if NoneLive(known, rows) then Ok(()) else Err;
    }
  }

  // ----- Termination

  /** `pid` was sent a SIGTERM, or a reading showed that its process is not the recorded one. */
  ghost predicate Stopped(known: Known, kernel: Kernel, lo: nat, hi: nat, sent: seq<Sent>, pid: int)
    requires pid in known
  {
    || (exists i | 0 <= i < |sent| :: sent[i].pid == pid && sent[i].signal == Term)
    || (exists k: nat | lo <= k < hi :: !RowMatches(kernel.readings(k), pid, known[pid]))
  }

  /** In the table it was decided on, each signal's target runs a host command or one inside the allowed root. */
  ghost predicate AllMayRun(policy: Policy, sent: seq<Sent>) {
    forall i | 0 <= i < |sent| ::
      sent[i].pid in sent[i].rows && MayRun(policy, sent[i].pid, sent[i].rows[sent[i].pid].command)
  }

  lemma OnlyTrustedSignalled(policy: Policy, known: Known, kernel: Kernel, lo: nat, hi: nat, sent: seq<Sent>)
    requires Trusted(policy, known) && Authorised(known, kernel, lo, hi, sent)
    ensures AllMayRun(policy, sent)
  {
    forall i | 0 <= i < |sent|
      ensures sent[i].pid in sent[i].rows && MayRun(policy, sent[i].pid, sent[i].rows[sent[i].pid].command)
    {
      assert AuthorisedOne(known, kernel, lo, hi, sent[i]);
    }
  }

  lemma AuthorisedWider(known: Known, kernel: Kernel, lo: nat, hi: nat, lo': nat, hi': nat, sent: seq<Sent>)
    requires Authorised(known, kernel, lo, hi, sent) && lo' <= lo && hi <= hi'
    ensures Authorised(known, kernel, lo', hi', sent)
  {}

  /** What the loop of `terminate` has done while the processes in `rest` are still to be stopped. */
  ghost predicate Account(known: Known, kernel: Kernel, lo: nat, hi: nat, sent: seq<Sent>, rest: set<int>) {
    && Authorised(known, kernel, lo, hi, sent) && DeepestFirst(known, sent)
    && (forall i, pid | 0 <= i < |sent| && pid in rest && pid in known :: known[pid].depth <= known[sent[i].pid].depth)
    && (forall pid | pid in known && pid !in rest :: Stopped(known, kernel, lo, hi, sent, pid))
  }

  lemma AccountWider(known: Known, kernel: Kernel, lo: nat, hi: nat, lo': nat, hi': nat, sent: seq<Sent>)
    requires Account(known, kernel, lo, hi, sent, {}) && lo' <= lo && hi <= hi'
    ensures Account(known, kernel, lo', hi', sent, {})
  {}

  lemma LogGrows(before: seq<Sent>, sent: seq<Sent>, log: seq<Sent>, later: seq<Sent>)
    requires log == before + sent && log <= later
    ensures later == before + (sent + later[|log|..])
  {}

  /** Stopping one more process, no deeper than those before, extends the account of the loop. */
  lemma StopKeeps(known: Known, kernel: Kernel, lo: nat, at: nat, hi: nat, sent: seq<Sent>, new_: seq<Sent>, pid: int,
                  rest: set<int>)
    requires pid in rest && rest <= known.Keys && lo <= at < hi
    requires forall p | p in rest :: known[p].depth <= known[pid].depth
    requires Account(known, kernel, lo, at, sent, rest) && Authorised(known, kernel, at, hi, new_)
    requires forall i | 0 <= i < |new_| :: new_[i].pid == pid && new_[i].signal == (if i == 0 then Term else Kill)
    requires new_ == [] ==> !RowMatches(kernel.readings(at), pid, known[pid])
    ensures Account(known, kernel, lo, hi, sent + new_, rest - {pid})
  {
    var all := sent + new_;
    AuthorisedWider(known, kernel, lo, at, lo, hi, sent);
    AuthorisedWider(known, kernel, at, hi, lo, hi, new_);
    forall p | p in known && p !in rest - {pid} ensures Stopped(known, kernel, lo, hi, all, p) {
      if p != pid {
        StoppedLater(known, kernel, lo, at, hi, sent, new_, p);
      } else if new_ != [] {
        assert all[|sent|] == new_[0];
      }
    }
  }

  lemma StoppedLater(known: Known, kernel: Kernel, lo: nat, at: nat, hi: nat, sent: seq<Sent>, new_: seq<Sent>,
                     pid: int)
    requires pid in known && at <= hi && Stopped(known, kernel, lo, at, sent, pid)
    ensures Stopped(known, kernel, lo, hi, sent + new_, pid)
  {
    if i :| 0 <= i < |sent| && sent[i].pid == pid && sent[i].signal == Term {
      assert (sent + new_)[i] == sent[i];
    }
  }

  lemma {:induction false} DeepestExists(known: Known, s: set<int>)
    requires s != {} && s <= known.Keys
    ensures exists m :: m in s && forall p | p in s :: known[p].depth <= known[m].depth
  {
    var y := AnyMember(s);
    if s != {y} {
      DeepestExists(known, s - {y});
      var m :| m in s - {y} && forall p | p in s - {y} :: known[p].depth <= known[m].depth;
      var best := if known[m].depth < known[y].depth then y else m;
      forall p | p in s ensures known[p].depth <= known[best].depth {
        assert p == y || p in s - {y};
      }
      assert best in s;
    } else {
      assert forall p | p in s :: known[p].depth <= known[y].depth;
    }
  }

  // ----- Listings

  ghost predicate Lists(listed: seq<ProcessInfo>, rows: Rows, pids: set<int>) {
    && (forall i, j | 0 <= i < j < |listed| :: listed[i].pid < listed[j].pid)
    && (forall i | 0 <= i < |listed| ::
          listed[i].pid in pids && listed[i].pid in rows && listed[i] == rows[listed[i].pid])
    && (forall pid | pid in pids :: exists i | 0 <= i < |listed| :: listed[i].pid == pid)
  }

  lemma AnyMember<T>(s: set<T>) returns (x: T)
    requires s != {}
    ensures x in s
  {
    x :| x in s;
  }

  predicate IsLeast(m: int, s: set<int>) { m in s && forall x | x in s :: m <= x }

  lemma LeastWith(s: set<int>, y: int, m: int)
    requires y in s && IsLeast(m, s - {y})
    ensures IsLeast(Min(m, y), s)
  {
    forall x | x in s ensures Min(m, y) <= x {
      assert x == y || x in s - {y};
    }
  }

  lemma {:induction false} LeastExists(s: set<int>)
    requires s != {}
    ensures exists m :: IsLeast(m, s)
  {
    var y := AnyMember(s);
    if s == {y} {
      assert IsLeast(y, s);
    } else {
      LeastExists(s - {y});
      var m :| IsLeast(m, s - {y});
      LeastWith(s, y, m);
    }
  }

  lemma ListsGrows(listed: seq<ProcessInfo>, rows: Rows, pids: set<int>, m: int)
    requires Lists(listed, rows, pids) && m in rows && m !in pids
    requires forall i | 0 <= i < |listed| :: listed[i].pid < m
    ensures Lists(listed + [rows[m]], rows, pids + {m})
  {
    var more := listed + [rows[m]];
    forall pid | pid in pids + {m} ensures exists i | 0 <= i < |more| :: more[i].pid == pid {
      if pid == m {
        assert more[|listed|].pid == m;
      } else {
        var i :| 0 <= i < |listed| && listed[i].pid == pid;
        assert more[i].pid == pid;
      }
    }
  }

  method PopLeast(s: set<int>) returns (m: int, rest: set<int>)
    requires s != {}
    ensures m in s && rest == s - {m} && forall x | x in rest :: m < x
  {
    LeastExists(s);
    m :| IsLeast(m, s);
    rest := s - {m};
  }

  lemma TakeOne(done: set<int>, before: set<int>, m: int, pids: set<int>)
    requires done + before == pids && done !! before && m in before
    ensures done + {m} + (before - {m}) == pids && done + {m} !! before - {m} && m !in done
  {}

  predicate AllBelow(listed: seq<ProcessInfo>, rest: set<int>) {
    forall i, pid | 0 <= i < |listed| && pid in rest :: listed[i].pid < pid
  }

  lemma StillBelow(listed: seq<ProcessInfo>, info: ProcessInfo, rest: set<int>)
    requires AllBelow(listed, rest) && info.pid in rest && forall pid | pid in rest - {info.pid} :: info.pid < pid
    ensures AllBelow(listed + [info], rest - {info.pid})
  {}

  method ListRows(rows: Rows, pids: set<int>) returns (listed: seq<ProcessInfo>)
    requires pids <= rows.Keys
    ensures Lists(listed, rows, pids)
  {
    listed := [];
    var rest := pids;
    ghost var done: set<int> := {};
    while rest != {}
      invariant done + rest == pids && done !! rest
      invariant Lists(listed, rows, done) && AllBelow(listed, rest)
      decreases |rest|
    {
      ghost var before := rest;
      var m;
      m, rest := PopLeast(rest);
      TakeOne(done, before, m, pids);
      ListsGrows(listed, rows, done, m);
      StillBelow(listed, rows[m], before);
      listed := listed + [rows[m]];
      done := done + {m};
    }
    assert done == pids;
  }

  /** Every observed process is live. */
  lemma ClosureIsLive(policy: Policy, rows: Rows, known: Known, seed: Known, observed: Known)
    requires Seed(policy, rows, known) == Ok(seed) && IsClosure(policy, rows, known, seed, observed)
    ensures observed.Keys <= rows.Keys
  {}
}
