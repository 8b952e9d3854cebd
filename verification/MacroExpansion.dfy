/** The bounded breadth-first expansion of `${NAME}` macros in an NSIS instruction, against rewriting by single
    steps. */
module MacroExpansion {
  import opened Prelude
  import opened BoundedRewriting

  /** Every text a script `!define`s for a name. */
  type Definitions = map<string, set<string>>

  predicate NameChar(c: char) {
    'A' <= c <= 'Z' || 'a' <= c <= 'z' || '0' <= c <= '9' || c == '_'
  }

  /** Letters, digits and the underscore make names, and nothing next to them does. */
  lemma NameChars()
    ensures forall c | c in {'A', 'M', 'Z', 'a', 'm', 'z', '0', '5', '9', '_'} :: NameChar(c)
    ensures forall c | c in {'@', '[', '`', '{', '}', '/', ':', '^', '-', '.', ' ', '$'} :: !NameChar(c)
  {}

  /** `text[i..j]` matches `\$\{[A-Za-z0-9_]+\}`. */
  ghost predicate IsMacro(text: string, i: int, j: int) {
    && 0 <= i && i + 4 <= j <= |text|
    && text[i] == '$' && text[i + 1] == '{' && text[j - 1] == '}'
    && forall k | i + 2 <= k < j - 1 :: NameChar(text[k])
  }

  /** The end of the run of name characters that starts at `i`. */
  function NameEnd(text: string, i: nat): (e: nat)
    requires i <= |text|
    ensures i <= e <= |text| && (forall k | i <= k < e :: NameChar(text[k]))
    ensures e < |text| ==> !NameChar(text[e])
    decreases |text| - i
  {
    if i < |text| && NameChar(text[i]) then NameEnd(text, i + 1) else i
  }

  datatype Match = Match(start: nat, end: nat)

  /** The leftmost match at or after `from`. */
  function Search(text: string, from: nat): (m: Option<Match>)
    requires from <= |text|
    ensures m.Some? ==> from <= m.value.start && IsMacro(text, m.value.start, m.value.end)
    ensures forall i, j | from <= i && IsMacro(text, i, j) ::
              m.Some? && (m.value.start < i || m.value == Match(i, j))
    decreases |text| - from
  {
    if from + 4 > |text| then None
    else
      var e := NameEnd(text, from + 2);
      if text[from] == '$' && text[from + 1] == '{' && e > from + 2 && e < |text| && text[e] == '}' then
        assert forall j | IsMacro(text, from, j) :: j == e + 1;
        Some(Match(from, e + 1))
      else
        assert forall j | IsMacro(text, from, j) :: j == e + 1;
        Search(text, from + 1)
  }

  /** All results of replacing the leftmost macro by one of its definitions; none if it has none. */
  function Rewrites(defs: Definitions, text: string): set<string> {
    var m := Search(text, 0);
    if m.None? then {}
    else
      var name := text[m.value.start + 2..m.value.end - 1];
      if name !in defs then {}
      else set r | r in defs[name] :: text[..m.value.start] + r + text[m.value.end..]
  }

  function Macros(defs: Definitions): Step { text => Rewrites(defs, text) }

  /** The audit of one instruction: the expansion must settle, and no reachable spelling but the written one may be
      forbidden. */
  method AuditInstruction(defs: Definitions, token: string, forbidden: string -> bool) returns (accepted: bool)
    ensures accepted <==> (Settles(Macros(defs), token) && NoneForbidden(Macros(defs), token, forbidden))
  {
    var expanded := ExpandInstruction(Macros(defs), token);
    if expanded.Err? { return false; }
    var rest := expanded.value;
    while rest != {}
      invariant rest <= expanded.value
      invariant forall t | t in expanded.value - rest && t != token :: !forbidden(t)
      decreases |rest|
    {
      var t :| t in rest;
      if t != token && forbidden(t) { return false; }
      rest := rest - {t};
    }
    assert expanded.value - rest == expanded.value;
    return true;
  }

  ghost predicate NoneForbidden(step: Step, token: string, forbidden: string -> bool) {
    forall t | Terminal(step, t) && Reachable(step, token, t) && t != token :: !forbidden(t)
  }

  /** A name may mix all of them, and may not be empty. */
  lemma MacroNames()
    ensures Search("${Tauri_v2}", 0) == Some(Match(0, 11))
    ensures Search("${}", 0).None? && Search("${a-b}", 0).None?
  {
    assert IsMacro("${Tauri_v2}", 0, 11);
    var broken := "${a-b}";
    assert broken[3] == '-' && !NameChar(broken[3]);
    assert forall i, j :: IsMacro(broken, i, j) ==> i == 0 && j == 6;
  }

  // ----- Replacing macros in any order

  function Replaced(text: string, i: nat, j: nat, r: string): string
    requires i <= j <= |text|
  {
    text[..i] + r + text[j..]
  }

  /** One macro, any of them, is replaced by one of its definitions. */
  ghost predicate ReplacesAt(defs: Definitions, text: string, next: string, i: int, j: int, r: string) {
    && IsMacro(text, i, j) && text[i + 2..j - 1] in defs && r in defs[text[i + 2..j - 1]]
    && next == Replaced(text, i, j, r)
  }

  ghost predicate ReplacesSome(defs: Definitions, text: string, next: string) {
    exists i, j, r :: ReplacesAt(defs, text, next, i, j, r)
  }

  ghost predicate IsFreeChain(defs: Definitions, chain: seq<string>, from: string, to: string) {
    && chain != [] && chain[0] == from && chain[|chain| - 1] == to
    && forall i | 0 < i < |chain| :: ReplacesSome(defs, chain[i - 1], chain[i])
  }

  ghost predicate MacroFree(text: string) { forall i, j :: !IsMacro(text, i, j) }

  ghost predicate IsLeftmost(text: string, i: int, j: int) {
    IsMacro(text, i, j) && forall a, b :: IsMacro(text, a, b) ==> i <= a
  }

  /** Two macros of a text are the same or apart. */
  lemma MacrosApart(text: string, i: int, j: int, a: int, b: int)
    requires IsMacro(text, i, j) && IsMacro(text, a, b)
    ensures i == a ==> j == b
    ensures i < a ==> j <= a
  {
    if i == a {
      assert !(j < b) && !(b < j);
    }
  }

  lemma MacroMoves(text: string, other: string, i: int, j: int, k: nat)
    requires IsMacro(text, i, j) && k + (j - i) <= |other| && other[k..k + (j - i)] == text[i..j]
    ensures IsMacro(other, k, k + (j - i)) && other[k + 2..k + (j - i) - 1] == text[i + 2..j - 1]
  {
    assert forall x | 0 <= x < j - i :: other[k + x] == other[k..k + (j - i)][x] == text[i..j][x] == text[i + x];
    assert forall x | k + 2 <= x < k + (j - i) - 1 :: other[x] == text[i + (x - k)];
  }

  /** Replacing a macro to its right leaves the leftmost one leftmost. */
  lemma LeftmostStays(text: string, i: int, j: int, a: int, b: int, r: string)
    requires IsLeftmost(text, i, j) && IsMacro(text, a, b) && i < a
    ensures j <= a
    ensures var next := Replaced(text, a, b, r); IsLeftmost(next, i, j) && next[i + 2..j - 1] == text[i + 2..j - 1]
  {
    MacrosApart(text, i, j, a, b);
    var next := Replaced(text, a, b, r);
    assert next[i..j] == text[i..j];
    MacroMoves(text, next, i, j, i);
    forall x, y | IsMacro(next, x, y) ensures i <= x {
      if x < i {
        MacrosApart(next, x, y, i, j);
        assert text[x..y] == next[x..y];
        MacroMoves(next, text, x, y, x);
      }
    }
  }

  lemma LaterPiece(left: string, mid: string, y: string, right: string, q: string)
    ensures var k := |left| + |mid|;
      && (left + (mid + y + right))[k..k + |y|] == y
      && Replaced(left + (mid + y + right), k, k + |y|, q) == left + (mid + q + right)
  {
    var text, k := left + (mid + y + right), |left| + |mid|;
    assert text[..k] == left + mid && text[k + |y|..] == right;
    assert (left + mid) + q + right == left + (mid + q + right);
  }

  /** What is left of a text around a place to its right that was replaced. */
  lemma InnerSlices(text: string, i: nat, j: nat, a: nat, b: nat, q: string)
    requires i <= j <= a <= b <= |text|
    ensures var inner := Replaced(text, a, b, q);
      j <= |inner| && inner[..i] == text[..i] && inner[j..] == text[j..a] + q + text[b..]
  {}

  lemma RestParts(text: string, j: nat, a: nat, b: nat)
    requires j <= a <= b <= |text|
    ensures text[j..] == text[j..a] + text[a..b] + text[b..]
  {}

  predicate IsDefined(defs: Definitions, name: string) { name in defs && defs[name] != {} }

  /** No macro of the text can be replaced any more. */
  ghost predicate FreeFinal(defs: Definitions, text: string) { forall next :: !ReplacesSome(defs, text, next) }

  /** What replacing the leftmost macro, again and again, ends in. */
  ghost predicate Ends(defs: Definitions, from: string, text: string) {
    Terminal(Macros(defs), text) && Reachable(Macros(defs), from, text)
  }

  /** What replacing macros in some order ends in. */
  ghost predicate FreeEnds(defs: Definitions, from: string, text: string) {
    FreeFinal(defs, text) && exists chain :: IsFreeChain(defs, chain, from, text)
  }

  /** In no text the expansion returns is a defined macro left. */
  ghost predicate NothingLeft(defs: Definitions, from: string) {
    forall text | Ends(defs, from, text) :: FreeFinal(defs, text)
  }

  /** The leftmost macro, if it has to go for the text to end up as `to`, can be replaced first. */
  lemma {:induction false} LeftmostFirst(defs: Definitions, chain: seq<string>, from: string, to: string, i: int,
                                         j: int)
    returns (r: string, rest: seq<string>)
    requires IsFreeChain(defs, chain, from, to) && IsLeftmost(from, i, j)
    requires MacroFree(to) || (IsDefined(defs, from[i + 2..j - 1]) && FreeFinal(defs, to))
    ensures |rest| == |chain| - 1
    ensures ReplacesAt(defs, from, Replaced(from, i, j, r), i, j, r)
            && IsFreeChain(defs, rest, Replaced(from, i, j, r), to)
    decreases |chain|
  {
    if from == to && |chain| == 1 { MustGo(defs, from, i, j); }
    assert |chain| > 1;
    var next := chain[1];
    assert ReplacesSome(defs, chain[1 - 1], chain[1]);
    var a, b, q :| ReplacesAt(defs, from, next, a, b, q);
    MacrosApart(from, i, j, a, b);
    var tail := chain[1..];
    assert IsFreeChain(defs, tail, next, to) by {
      forall x | 0 < x < |tail| ensures ReplacesSome(defs, tail[x - 1], tail[x]) {
        assert ReplacesSome(defs, chain[x + 1 - 1], chain[x + 1]);
      }
    }
    if a == i {
      r, rest := q, tail;
    } else {
      LeftmostStays(from, i, j, a, b, q);
      var later;
      r, later := LeftmostFirst(defs, tail, next, to, i, j);
      Commute(defs, from, i, j, r, a, b, q);
      rest := [Replaced(from, i, j, r)] + later;
    }
  }

  /** A text with a defined macro is not final. */
  lemma MustGo(defs: Definitions, text: string, i: int, j: int)
    requires IsMacro(text, i, j) && IsDefined(defs, text[i + 2..j - 1])
    ensures !FreeFinal(defs, text)
  {
    var r :| r in defs[text[i + 2..j - 1]];
    assert ReplacesAt(defs, text, Replaced(text, i, j, r), i, j, r);
    assert ReplacesSome(defs, text, Replaced(text, i, j, r));
  }

  /** Two replacements of macros that are apart commute. */
  lemma Commute(defs: Definitions, text: string, i: int, j: int, r: string, a: int, b: int, q: string)
    requires IsMacro(text, i, j) && IsMacro(text, a, b) && j <= a
             && ReplacesAt(defs, text, Replaced(text, a, b, q), a, b, q)
    ensures j <= |Replaced(text, a, b, q)|
    ensures ReplacesSome(defs, Replaced(text, i, j, r), Replaced(Replaced(text, a, b, q), i, j, r))
  {
    var first, last := Replaced(text, i, j, r), Replaced(Replaced(text, a, b, q), i, j, r);
    var left, mid, y, right := text[..i] + r, text[j..a], text[a..b], text[b..];
    RestParts(text, j, a, b);
    InnerSlices(text, i, j, a, b, q);
    assert first == left + (mid + y + right) && last == left + (mid + q + right);
    MoveReplaced(defs, text, a, b, q, left, mid, right);
  }

  /** A macro that stands in other surroundings is replaced there alike. */
  lemma MoveReplaced(defs: Definitions, text: string, a: int, b: int, q: string, left: string, mid: string,
                     right: string)
    requires IsMacro(text, a, b) && text[a + 2..b - 1] in defs && q in defs[text[a + 2..b - 1]]
    ensures ReplacesSome(defs, left + (mid + text[a..b] + right), left + (mid + q + right))
  {
    var first, k := left + (mid + text[a..b] + right), |left| + |mid|;
    LaterPiece(left, mid, text[a..b], right, q);
    MacroMoves(text, first, a, b, k);
    assert ReplacesAt(defs, first, left + (mid + q + right), k, k + (b - a), q);
  }

  lemma LeftmostIsStep(defs: Definitions, text: string, next: string, i: int, j: int, r: string)
    requires IsLeftmost(text, i, j) && ReplacesAt(defs, text, next, i, j, r)
    ensures next in Macros(defs)(text)
  {
    assert Search(text, 0) == Some(Match(i, j));
  }

  /** A text whose leftmost macro is undefined is where the expansion ends. */
  lemma UndefinedIsTerminal(defs: Definitions, text: string, i: int, j: int)
    requires IsLeftmost(text, i, j) && !IsDefined(defs, text[i + 2..j - 1])
    ensures Ends(defs, text, text)
  {
    assert Search(text, 0) == Some(Match(i, j));
    assert IsChain(Macros(defs), [text], text, text);
  }

  lemma NothingLeftAfter(defs: Definitions, from: string, next: string)
    requires NothingLeft(defs, from) && next in Macros(defs)(from)
    ensures NothingLeft(defs, next)
  {
    var step := Macros(defs);
    forall text | Ends(defs, next, text) ensures FreeFinal(defs, text) {
      var chain :| IsChain(step, chain, next, text);
      assert IsChain(step, [from] + chain, from, text);
      assert Ends(defs, from, text);
    }
  }

  /** What some order of replacements ends in is reached leftmost-first too, if it is macro-free, or if the expansion
      leaves no defined macro. */
  lemma {:induction false} AnyOrderIsLeftmost(defs: Definitions, chain: seq<string>, from: string, to: string)
    requires IsFreeChain(defs, chain, from, to)
    requires MacroFree(to) || (FreeFinal(defs, to) && NothingLeft(defs, from))
    ensures Reachable(Macros(defs), from, to)
    decreases |chain|
  {
    var step := Macros(defs);
    if |chain| == 1 {
      assert IsChain(step, [from], from, to);
    } else {
      assert ReplacesSome(defs, chain[1 - 1], chain[1]);
      var m := Search(from, 0).value;
      if !IsDefined(defs, from[m.start + 2..m.end - 1]) { UndefinedIsTerminal(defs, from, m.start, m.end); }
      var r, rest := LeftmostFirst(defs, chain, from, to, m.start, m.end);
      var next := Replaced(from, m.start, m.end, r);
      LeftmostIsStep(defs, from, next, m.start, m.end, r);
      if !MacroFree(to) { NothingLeftAfter(defs, from, next); }
      AnyOrderIsLeftmost(defs, rest, next, to);
      var short :| IsChain(step, short, next, to);
      assert IsChain(step, [from] + short, from, to);
    }
  }

  lemma FinalIsTerminal(defs: Definitions, text: string)
    requires FreeFinal(defs, text)
    ensures Terminal(Macros(defs), text)
  {
    var m := Search(text, 0);
    if m.Some? && IsDefined(defs, text[m.value.start + 2..m.value.end - 1]) {
      MustGo(defs, text, m.value.start, m.value.end);
    }
  }

  lemma StepReplaces(defs: Definitions, text: string, next: string)
    requires next in Macros(defs)(text)
    ensures ReplacesSome(defs, text, next)
  {
    var m := Search(text, 0).value;
    var r :| r in defs[text[m.start + 2..m.end - 1]] && next == text[..m.start] + r + text[m.end..];
    assert ReplacesAt(defs, text, next, m.start, m.end, r);
  }

  lemma LeftmostIsFree(defs: Definitions, chain: seq<string>, from: string, to: string)
    requires IsChain(Macros(defs), chain, from, to)
    ensures IsFreeChain(defs, chain, from, to)
  {
    forall i | 0 < i < |chain| ensures ReplacesSome(defs, chain[i - 1], chain[i]) {
      StepReplaces(defs, chain[i - 1], chain[i]);
    }
  }

  /** The expansion ends in exactly what every order of replacements can end in, if and only if it leaves no defined
      macro in any of its results. */
  lemma OrderMattersIffLeft(defs: Definitions, from: string)
    ensures NothingLeft(defs, from) <==> forall text :: Ends(defs, from, text) <==> FreeEnds(defs, from, text)
  {
    if NothingLeft(defs, from) {
      forall text ensures Ends(defs, from, text) <==> FreeEnds(defs, from, text) {
        if Ends(defs, from, text) {
          var chain :| IsChain(Macros(defs), chain, from, text);
          LeftmostIsFree(defs, chain, from, text);
        }
        if FreeEnds(defs, from, text) {
          var chain :| IsFreeChain(defs, chain, from, text);
          AnyOrderIsLeftmost(defs, chain, from, text);
          FinalIsTerminal(defs, text);
        }
      }
    }
  }

  /** In an audited instruction nothing that an order of replacements ends in is forbidden, if it is macro-free, or if
      the expansion leaves no defined macro. */
  lemma NoOrderEscapes(defs: Definitions, token: string, forbidden: string -> bool, to: string)
    requires NoneForbidden(Macros(defs), token, forbidden)
    requires FreeEnds(defs, token, to) && (MacroFree(to) || NothingLeft(defs, token)) && to != token
    ensures !forbidden(to)
  {
    var chain :| IsFreeChain(defs, chain, token, to);
    AnyOrderIsLeftmost(defs, chain, token, to);
    FinalIsTerminal(defs, to);
  }

  lemma LeftBehind(defs: Definitions, text: string, next: string)
    requires Ends(defs, text, text) && ReplacesSome(defs, text, next)
    ensures !NothingLeft(defs, text)
  {}

  /** An undefined macro in front stops the expansion, although a defined one follows. */
  lemma UndefinedMacroStops()
    ensures var defs := map["D" := {"x"}];
      && Terminal(Macros(defs), "${U}${D}") && ReplacesSome(defs, "${U}${D}", "${U}x")
      && !NothingLeft(defs, "${U}${D}")
  {
    var defs: Definitions, text := map["D" := {"x"}], "${U}${D}";
    assert IsMacro(text, 0, 4) && IsMacro(text, 4, 8);
    assert text[2..3] == "U" && text[6..7] == "D" && "U"[0] != "D"[0];
    UndefinedIsTerminal(defs, text, 0, 4);
    assert Replaced(text, 4, 8, "x") == "${U}x";
    assert ReplacesAt(defs, text, "${U}x", 4, 8, "x");
    LeftBehind(defs, text, "${U}x");
  }

  // ----- An acyclic chain that is too long

  function Letter(i: nat): char
    requires i <= 16
  {
    'A' + i as char
  }

  function Link(i: nat): string
    requires i <= 16
  {
    ['$', '{', Letter(i), '}']
  }

  /** `A` is defined as `${B}`, and so on; the last name of the ladder is not defined. */
  function Ladder(n: nat): Definitions
    requires n <= 16
  {
    if n == 0 then map[] else Ladder(n - 1)[[Letter(n - 1)] := {Link(n)}]
  }

  lemma LettersDiffer(i: nat, k: nat)
    requires i <= 16 && k <= 16 && [Letter(i)] == [Letter(k)]
    ensures i == k
  {
    assert [Letter(i)][0] == [Letter(k)][0];
  }

  lemma {:induction false} LadderAt(n: nat, i: nat)
    requires n <= 16 && i <= 16
    ensures [Letter(i)] in Ladder(n) <==> i < n
    ensures i < n ==> Ladder(n)[[Letter(i)]] == {Link(i + 1)}
  {
    if n > 0 {
      LadderAt(n - 1, i);
      if [Letter(i)] == [Letter(n - 1)] { LettersDiffer(i, n - 1); }
    }
  }

  /** A text that is one macro and nothing else rewrites to the definitions of its name. */
  lemma WholeMacro(defs: Definitions, text: string)
    requires IsMacro(text, 0, |text|)
    ensures var name := text[2..|text| - 1]; Rewrites(defs, text) == if name in defs then defs[name] else {}
  {
    var n, name := |text|, text[2..|text| - 1];
    assert Search(text, 0) == Some(Match(0, n));
    if name in defs {
      forall r ensures r in Rewrites(defs, text) <==> r in defs[name] {
        WholeReplaced(text, r);
        if r in Rewrites(defs, text) {
          var q :| q in defs[name] && r == text[..0] + q + text[n..];
          WholeReplaced(text, q);
        }
      }
    }
  }

  lemma WholeReplaced(text: string, r: string)
    ensures text[..0] + r + text[|text|..] == r
  {}

  lemma LadderStep(m: nat, i: nat)
    requires i <= m <= 16
    ensures Macros(Ladder(m))(Link(i)) == if i < m then {Link(i + 1)} else {}
  {
    var text := Link(i);
    assert text[2..3] == [Letter(i)];
    LadderAt(m, i);
    WholeMacro(Ladder(m), text);
  }

  lemma {:induction false} LadderLevel(m: nat, n: nat)
    requires n <= m + 1 <= 17
    ensures Level(Macros(Ladder(m)), Link(0), n) == if n <= m then {Link(n)} else {}
    decreases n
  {
    if n > 0 {
      LadderLevel(m, n - 1);
      LadderStep(m, n - 1);
      NextLevel(Macros(Ladder(m)), Link(0), n - 1);
      OfOne(Macros(Ladder(m)), Link(n - 1));
    }
  }

  /** No macro of the ladder leads back to itself: no chain has more than 16 steps. It has one spelling, and is
      refused. */
  lemma LadderRefused()
    ensures forall chain, t :: IsChain(Macros(Ladder(16)), chain, Link(0), t) ==> |chain| <= 17
    ensures Reachable(Macros(Ladder(16)), Link(0), Link(16)) && Terminal(Macros(Ladder(16)), Link(16))
    ensures !Settles(Macros(Ladder(16)), Link(0))
  {
    var step := Macros(Ladder(16));
    LadderLevel(16, 16);
    LadderLevel(16, 17);
    LadderStep(16, 16);
    var long := LevelHasChain(step, Link(0), 16, Link(16));
    LongChainRefused(step, Link(0), long, Link(16));
    forall chain, t | IsChain(step, chain, Link(0), t) ensures |chain| <= 17 {
      ChainInLevel(step, chain, Link(0), t);
      if |chain| > 17 { EmptyLevelStays(step, Link(0), 17, |chain| - 1); }
    }
  }

  lemma {:induction false} LadderBelow(m: nat, n: nat)
    requires n <= m + 1 <= 17
    ensures TerminalsBelow(Macros(Ladder(m)), Link(0), n) == if n <= m then {} else {Link(m)}
    decreases n
  {
    if n > 0 {
      LadderBelow(m, n - 1);
      LadderLevel(m, n - 1);
      LadderStep(m, n - 1);
      NextLevel(Macros(Ladder(m)), Link(0), n - 1);
      OfOne(Macros(Ladder(m)), Link(n - 1));
    }
  }

  /** One step less, and it is accepted. */
  lemma ShorterLadderAccepted()
    ensures Settles(Macros(Ladder(15)), Link(0))
  {
    var step := Macros(Ladder(15));
    LadderLevel(15, 16);
    forall e: nat | e <= 15 ensures FitsAt(step, Link(0), e) {
      LadderLevel(15, e + 1);
      LadderBelow(15, e + 1);
    }
    assert SettlesAt(step, Link(0), 15);
  }

  // ----- A macro with many definitions

  function Fan(spellings: set<string>): Definitions { map["D" := spellings] }

  lemma FanStep(spellings: set<string>)
    requires forall s | s in spellings :: MacroFree(s)
    ensures Macros(Fan(spellings))("${D}") == spellings
    ensures forall s | s in spellings :: Macros(Fan(spellings))(s) == {}
  {
    assert "${D}"[2..3] == "D";
    WholeMacro(Fan(spellings), "${D}");
    forall s | s in spellings ensures Macros(Fan(spellings))(s) == {} {
      assert Search(s, 0).None?;
    }
  }

  /** Up to 256 spellings at once are accepted, and no more. */
  lemma FanAccepted(spellings: set<string>)
    requires spellings != {} && forall s | s in spellings :: MacroFree(s)
    ensures Settles(Macros(Fan(spellings)), "${D}") <==> |spellings| <= 256
  {
    FanStep(spellings);
    OneStepSettles(Macros(Fan(spellings)), "${D}", spellings);
  }
}
