/** Bounded breadth-first rewriting, against chains of single steps. */
module BoundedRewriting {
  import opened Prelude

  const MAX_ROUNDS := 16
  const MAX_SPELLINGS := 256

  /** All one-step rewritings of a text. */
  type Step = string -> set<string>

  predicate Terminal(step: Step, text: string) { step(text) == {} }

  ghost function TerminalsIn(step: Step, texts: set<string>): set<string> {
    set c | c in texts && Terminal(step, c)
  }

  ghost function RewritesOf(step: Step, texts: set<string>): set<string> {
    set c, t | c in texts && t in step(c) :: t
  }

  lemma OneMore(step: Step, texts: set<string>, c: string)
    ensures TerminalsIn(step, texts + {c}) == if Terminal(step, c) then TerminalsIn(step, texts) + {c}
            else TerminalsIn(step, texts)
    ensures RewritesOf(step, texts + {c}) == if Terminal(step, c) then RewritesOf(step, texts)
            else RewritesOf(step, texts) + step(c)
  {}

  lemma OfOne(step: Step, c: string)
    ensures TerminalsIn(step, {c}) == if Terminal(step, c) then {c} else {}
    ensures RewritesOf(step, {c}) == step(c)
  {}

  lemma UnionAssociative(a: set<string>, b: set<string>, c: set<string>)
    ensures (a + b) + c == a + (b + c)
  {}

  // ----- Rewriting by single steps

  ghost predicate IsChain(step: Step, chain: seq<string>, from: string, to: string) {
    && chain != [] && chain[0] == from && chain[|chain| - 1] == to
    && forall i | 0 < i < |chain| :: chain[i] in step(chain[i - 1])
  }

  ghost predicate Reachable(step: Step, from: string, to: string) {
    exists chain :: IsChain(step, chain, from, to)
  }

  /** The texts exactly `n` steps away. */
  ghost function Level(step: Step, text: string, n: nat): set<string> {
    if n == 0 then {text} else RewritesOf(step, Level(step, text, n - 1))
  }

  lemma {:induction false} LevelHasChain(step: Step, text: string, n: nat, t: string) returns (chain: seq<string>)
    requires t in Level(step, text, n)
    ensures IsChain(step, chain, text, t) && |chain| == n + 1
  {
    if n == 0 {
      chain := [text];
    } else {
      var c :| c in Level(step, text, n - 1) && t in step(c);
      chain := LevelHasChain(step, text, n - 1, c);
      chain := chain + [t];
    }
  }

  lemma {:induction false} ChainInLevel(step: Step, chain: seq<string>, text: string, t: string)
    requires IsChain(step, chain, text, t)
    ensures t in Level(step, text, |chain| - 1)
    decreases |chain|
  {
    if |chain| > 1 {
      var n := |chain| - 1;
      ChainInLevel(step, chain[..n], text, chain[n - 1]);
    }
  }

  lemma {:induction false} EmptyLevelStays(step: Step, text: string, n: nat, m: nat)
    requires Level(step, text, n) == {} && n <= m
    ensures Level(step, text, m) == {}
  {
    if n < m { EmptyLevelStays(step, text, n, m - 1); }
  }

  /** The terminal texts fewer than `n` steps away. */
  ghost function TerminalsBelow(step: Step, text: string, n: nat): set<string> {
    if n == 0 then {}
    else TerminalsBelow(step, text, n - 1) + TerminalsIn(step, Level(step, text, n - 1))
  }

  lemma {:induction false} BelowHasLevel(step: Step, text: string, n: nat, t: string) returns (i: nat)
    requires t in TerminalsBelow(step, text, n)
    ensures i < n && t in Level(step, text, i) && Terminal(step, t)
  {
    if t in TerminalsIn(step, Level(step, text, n - 1)) {
      i := n - 1;
    } else {
      i := BelowHasLevel(step, text, n - 1, t);
    }
  }

  lemma {:induction false} LevelInBelow(step: Step, text: string, n: nat, i: nat, t: string)
    requires i < n && t in Level(step, text, i) && Terminal(step, t)
    ensures t in TerminalsBelow(step, text, n)
  {
    if i < n - 1 { LevelInBelow(step, text, n - 1, i, t); }
  }

  // ----- The expansion

  /** After round `d` the spellings still fit the bound. */
  ghost predicate FitsAt(step: Step, text: string, d: nat) {
    |TerminalsBelow(step, text, d + 1)| + |Level(step, text, d + 1)| <= MAX_SPELLINGS
  }

  /** Nothing is left to expand after round `d`, and every round up to it fits the bound. */
  ghost predicate SettlesAt(step: Step, text: string, d: nat) {
    Level(step, text, d + 1) == {} && forall e: nat | e <= d :: FitsAt(step, text, e)
  }

  ghost predicate Settles(step: Step, text: string) {
    exists d: nat | d < MAX_ROUNDS :: SettlesAt(step, text, d)
  }

  /** One round over `pending`: what is finished, and every one-step rewriting of the rest. */
  method ExpandRound(step: Step, pending: set<string>, done: set<string>)
    returns (completed: set<string>, next: set<string>)
    ensures completed == done + TerminalsIn(step, pending)
    ensures next == RewritesOf(step, pending)
  {
    completed, next := done, {};
    var rest := pending;
    ghost var visited: set<string> := {};
    assert visited + rest == pending;
    while rest != {}
      invariant visited + rest == pending
      invariant completed == done + TerminalsIn(step, visited)
      invariant next == RewritesOf(step, visited)
      decreases |rest|
    {
      var candidate :| candidate in rest;
      OneMore(step, visited, candidate);
      MoveOne(visited, rest, candidate);
      UnionAssociative(done, TerminalsIn(step, visited), {candidate});
      rest := rest - {candidate};
      visited := visited + {candidate};
      var replaced := step(candidate);
      if Terminal(step, candidate) {
        completed := completed + {candidate};
      } else {
        next := next + replaced;
      }
    }
  }

  ghost predicate AreReachableTerminals(step: Step, text: string, texts: set<string>) {
    forall t :: t in texts <==> Terminal(step, t) && Reachable(step, text, t)
  }

  /** Returns exactly the terminal texts reachable from `text`; refused exactly when the bounds do not hold. */
  method ExpandInstruction(step: Step, text: string) returns (r: Result<set<string>>)
    ensures r.Ok? <==> Settles(step, text)
    ensures r.Ok? ==> AreReachableTerminals(step, text, r.value)
  {
    var pending, completed: set<string> := {text}, {};
    for depth := 0 to MAX_ROUNDS
      invariant BeforeRound(step, text, depth, pending, completed)
    {
      var done, next := ExpandRound(step, pending, completed);
      AfterRound(step, text, depth, pending, completed, done, next);
      if |done| + |next| > MAX_SPELLINGS { return Err; }
      if next == {} { return Ok(done); }
      pending, completed := next, done;
    }
    NotSettledBefore(step, text, MAX_ROUNDS);
    return Err;
  }

  /** The loop's state before round `depth`. */
  ghost predicate BeforeRound(step: Step, text: string, depth: nat, pending: set<string>, completed: set<string>) {
    && pending == Level(step, text, depth) && completed == TerminalsBelow(step, text, depth)
    && (forall e: nat | e < depth :: FitsAt(step, text, e)) && (depth > 0 ==> pending != {})
  }

  lemma NextLevel(step: Step, text: string, n: nat)
    ensures Level(step, text, n + 1) == RewritesOf(step, Level(step, text, n))
    ensures TerminalsBelow(step, text, n + 1) == TerminalsBelow(step, text, n) + TerminalsIn(step, Level(step, text, n))
  {}

  lemma AfterRound(step: Step, text: string, depth: nat, pending: set<string>, completed: set<string>,
                   done: set<string>, next: set<string>)
    requires depth < MAX_ROUNDS && BeforeRound(step, text, depth, pending, completed)
    requires done == completed + TerminalsIn(step, pending) && next == RewritesOf(step, pending)
    ensures if |done| + |next| > MAX_SPELLINGS then !Settles(step, text)
            else if next == {} then Settles(step, text) && AreReachableTerminals(step, text, done)
            else BeforeRound(step, text, depth + 1, next, done)
  {
    NextLevel(step, text, depth);
    assert FitsAt(step, text, depth) <==> |done| + |next| <= MAX_SPELLINGS;
    if |done| + |next| > MAX_SPELLINGS {
      NotSettledBefore(step, text, depth);
    } else if next == {} {
      assert SettlesAt(step, text, depth);
      TerminalsAreReachable(step, text, depth + 1, done);
    }
  }

  /** Having settled at `d`, every round up to it fits the bound, and nothing is left afterwards. */
  lemma SettledAt(step: Step, text: string, d: nat, depth: nat)
    requires SettlesAt(step, text, d)
    ensures if depth <= d then FitsAt(step, text, depth) else Level(step, text, depth) == {}
  {
    if d < depth { EmptyLevelStays(step, text, d + 1, depth); }
  }

  /** While texts are pending at `depth`, no earlier round settled. */
  lemma NotSettledBefore(step: Step, text: string, depth: nat)
    requires depth > 0 ==> Level(step, text, depth) != {}
    requires depth >= MAX_ROUNDS || !FitsAt(step, text, depth)
    ensures !Settles(step, text)
  {
    forall d: nat | d < MAX_ROUNDS ensures !SettlesAt(step, text, d) {
      if SettlesAt(step, text, d) { SettledAt(step, text, d, depth); }
    }
  }

  lemma BelowIsReachable(step: Step, text: string, n: nat, t: string)
    requires t in TerminalsBelow(step, text, n)
    ensures Terminal(step, t) && Reachable(step, text, t)
  {
    var i := BelowHasLevel(step, text, n, t);
    var chain := LevelHasChain(step, text, i, t);
  }

  lemma ReachableIsBelow(step: Step, text: string, n: nat, t: string)
    requires Level(step, text, n) == {} && Terminal(step, t) && Reachable(step, text, t)
    ensures t in TerminalsBelow(step, text, n)
  {
    var chain :| IsChain(step, chain, text, t);
    var i: nat := |chain| - 1;
    ChainInLevel(step, chain, text, t);
    if i >= n { EmptyLevelStays(step, text, n, i); }
    LevelInBelow(step, text, n, i, t);
  }

  lemma TerminalsAreReachable(step: Step, text: string, n: nat, texts: set<string>)
    requires Level(step, text, n) == {} && texts == TerminalsBelow(step, text, n)
    ensures AreReachableTerminals(step, text, texts)
  {
    forall t ensures t in texts <==> Terminal(step, t) && Reachable(step, text, t) {
      if t in texts { BelowIsReachable(step, text, n, t); }
      if Terminal(step, t) && Reachable(step, text, t) { ReachableIsBelow(step, text, n, t); }
    }
  }

  /** A replacement chain of 16 steps or more is refused, an unbounded one in particular. */
  lemma LongChainRefused(step: Step, text: string, chain: seq<string>, t: string)
    requires IsChain(step, chain, text, t) && |chain| > MAX_ROUNDS
    ensures !Settles(step, text)
  {
    ChainInLevel(step, chain, text, t);
    forall d: nat | d < MAX_ROUNDS ensures !SettlesAt(step, text, d) {
      if SettlesAt(step, text, d) { SettledAt(step, text, d, |chain| - 1); }
    }
  }

  ghost predicate ShortChains(step: Step, text: string) {
    forall chain, t :: IsChain(step, chain, text, t) ==> |chain| <= MAX_ROUNDS
  }

  lemma EmptyRound(step: Step, text: string, n: nat)
    requires Level(step, text, n) == {}
    ensures Level(step, text, n + 1) == {} && TerminalsBelow(step, text, n + 1) == TerminalsBelow(step, text, n)
  {
    NextLevel(step, text, n);
    assert TerminalsIn(step, {}) == {} && RewritesOf(step, {}) == {};
  }

  /** Once nothing is pending, no later round changes what the bound counts. */
  lemma {:induction false} FitsStays(step: Step, text: string, n: nat, m: nat)
    requires Level(step, text, n + 1) == {} && n <= m
    ensures Level(step, text, m + 1) == {} && TerminalsBelow(step, text, m + 1) == TerminalsBelow(step, text, n + 1)
  {
    if n < m {
      FitsStays(step, text, n, m - 1);
      EmptyRound(step, text, m);
    }
  }

  lemma SettledIsBounded(step: Step, text: string, d: nat)
    requires d < MAX_ROUNDS && SettlesAt(step, text, d)
    ensures forall e: nat | e < MAX_ROUNDS :: FitsAt(step, text, e)
  {
    forall e: nat | e < MAX_ROUNDS ensures FitsAt(step, text, e) {
      assert FitsAt(step, text, d);
      if d < e { FitsStays(step, text, d, e); }
    }
  }

  /** Accepted exactly when every replacement chain has fewer than 16 steps and every round fits the bound on
      spellings. */
  lemma SettlesIffShort(step: Step, text: string)
    ensures Settles(step, text) <==> ShortChains(step, text) && forall d: nat | d < MAX_ROUNDS :: FitsAt(step, text, d)
  {
    if Settles(step, text) {
      var d :| 0 <= d < MAX_ROUNDS && SettlesAt(step, text, d);
      SettledIsBounded(step, text, d);
      forall chain, t | IsChain(step, chain, text, t) ensures |chain| <= MAX_ROUNDS {
        if |chain| > MAX_ROUNDS { LongChainRefused(step, text, chain, t); }
      }
    }
    if ShortChains(step, text) && forall d: nat | d < MAX_ROUNDS :: FitsAt(step, text, d) {
      if t :| t in Level(step, text, MAX_ROUNDS) { var chain := LevelHasChain(step, text, MAX_ROUNDS, t); }
      assert SettlesAt(step, text, MAX_ROUNDS - 1);
    }
  }

  lemma OneStepLevels(step: Step, text: string, ends: set<string>)
    requires step(text) == ends != {} && forall s | s in ends :: step(s) == {}
    ensures Level(step, text, 1) == ends && Level(step, text, 2) == {}
    ensures TerminalsBelow(step, text, 1) == {} && TerminalsBelow(step, text, 2) == ends
  {
    NextLevel(step, text, 0);
    NextLevel(step, text, 1);
    assert RewritesOf(step, {text}) == ends && TerminalsIn(step, {text}) == {};
    assert RewritesOf(step, ends) == {} && TerminalsIn(step, ends) == ends;
  }

  /** A text all of whose rewritings are final settles exactly when there are at most 256 of them. */
  lemma OneStepSettles(step: Step, text: string, ends: set<string>)
    requires step(text) == ends != {} && forall s | s in ends :: step(s) == {}
    ensures Settles(step, text) <==> |ends| <= 256
  {
    OneStepLevels(step, text, ends);
    assert FitsAt(step, text, 0) <==> |ends| <= 256;
    if |ends| <= 256 {
      assert FitsAt(step, text, 1);
      assert SettlesAt(step, text, 1);
    } else {
      NotSettledBefore(step, text, 0);
    }
  }
}
