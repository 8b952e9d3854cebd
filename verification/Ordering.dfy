/** Lexicographic order on code sequences, and sorting by such a key (Python's `sorted`). */
module Ordering {
  type Codes = seq<int>

  predicate Less(a: Codes, b: Codes) {
    if b == [] then false
    else if a == [] then true
    else if a[0] != b[0] then a[0] < b[0]
    else Less(a[1..], b[1..])
  }

  function CodesOf(s: string): Codes {
    seq(|s|, i requires 0 <= i < |s| => s[i] as int)
  }

  predicate StringLess(a: string, b: string) { Less(CodesOf(a), CodesOf(b)) }

  lemma CodesInjective(a: string, b: string)
    requires CodesOf(a) == CodesOf(b)
    ensures a == b
  {
    assert |a| == |CodesOf(a)| == |CodesOf(b)| == |b|;
    forall i | 0 <= i < |a| ensures a[i] == b[i] {
      assert CodesOf(a)[i] == CodesOf(b)[i];
    }
  }

  /** Exactly one of `a < b`, `a == b`, `b < a`. */
  lemma {:induction false} Trichotomy(a: Codes, b: Codes)
    ensures !(Less(a, b) && Less(b, a))
    ensures Less(a, b) || Less(b, a) <==> a != b
  {
    if a != [] && b != [] && a[0] == b[0] {
      Trichotomy(a[1..], b[1..]);
      assert a == [a[0]] + a[1..] && b == [b[0]] + b[1..];
    }
  }

  lemma {:induction false} Transitive(a: Codes, b: Codes, c: Codes)
    requires Less(a, b) && Less(b, c)
    ensures Less(a, c)
  {
    if a != [] && b != [] && c != [] && a[0] == b[0] == c[0] {
      Transitive(a[1..], b[1..], c[1..]);
    }
  }

  /** Before: at the first place where they differ the smaller code comes first, and a prefix comes before what it
      begins. */
  lemma {:induction false} LessIsLexicographic(a: Codes, b: Codes)
    ensures Less(a, b) <==> exists k :: FirstDifference(a, b, k)
  {
    if a != [] && b != [] && a[0] == b[0] {
      LessIsLexicographic(a[1..], b[1..]);
      if Less(a, b) {
        var k :| FirstDifference(a[1..], b[1..], k);
        assert FirstDifference(a, b, k + 1);
      }
      if k :| FirstDifference(a, b, k) { assert FirstDifference(a[1..], b[1..], k - 1); }
    } else if a != b {
      assert FirstDifference(a, b, 0) <==> Less(a, b);
    }
  }

  ghost predicate FirstDifference(a: Codes, b: Codes, k: int) {
    && 0 <= k <= |a| && k < |b| && (forall i | 0 <= i < k :: a[i] == b[i])
    && (k < |a| ==> a[k] < b[k])
  }

  /** Strictly ascending keys: sorted, and no two elements share a key. */
  ghost predicate Ascending<T>(key: T -> Codes, s: seq<T>) {
    forall i, j :: 0 <= i < j < |s| ==> Less(key(s[i]), key(s[j]))
  }

  ghost predicate DistinctKeys<T>(key: T -> Codes, s: seq<T>) {
    forall i, j :: 0 <= i < j < |s| ==> key(s[i]) != key(s[j])
  }

  function Insert<T>(key: T -> Codes, x: T, s: seq<T>): (r: seq<T>)
    ensures multiset(r) == multiset(s) + multiset{x}
  {
    if s == [] || Less(key(x), key(s[0])) then [x] + s
    else
      assert s == [s[0]] + s[1..];
      [s[0]] + Insert(key, x, s[1..])
  }

  /** Stable insertion sort, the order `sorted(..., key=...)` returns. */
  function Sort<T>(key: T -> Codes, s: seq<T>): (r: seq<T>)
    ensures multiset(r) == multiset(s)
  {
    if s == [] then []
    else
      assert s == s[..|s| - 1] + [s[|s| - 1]];
      Insert(key, s[|s| - 1], Sort(key, s[..|s| - 1]))
  }

  lemma MultisetMember<T>(s: seq<T>, x: T)
    ensures x in s <==> x in multiset(s)
  {}

  lemma {:induction false} InsertAscending<T>(key: T -> Codes, x: T, s: seq<T>)
    requires Ascending(key, s)
    requires forall y | y in s :: key(y) != key(x)
    ensures Ascending(key, Insert(key, x, s))
  {
    if s != [] {
      if Less(key(x), key(s[0])) {
        forall j | 0 <= j < |s| ensures Less(key(x), key(s[j])) {
          if j > 0 { Transitive(key(x), key(s[0]), key(s[j])); }
        }
      } else {
        var rest := Insert(key, x, s[1..]);
        InsertAscending(key, x, s[1..]);
        assert s[0] in s;
        Trichotomy(key(s[0]), key(x));
        forall j | 0 <= j < |rest| ensures Less(key(s[0]), key(rest[j])) {
          MultisetMember(rest, rest[j]);
          assert rest[j] in multiset(s[1..]) + multiset{x};
          if rest[j] != x { assert rest[j] in s[1..]; }
        }
      }
    }
  }

  lemma {:induction false} SortAscending<T>(key: T -> Codes, s: seq<T>)
    requires DistinctKeys(key, s)
    ensures Ascending(key, Sort(key, s))
  {
    if s != [] {
      var init, last := s[..|s| - 1], s[|s| - 1];
      SortAscending(key, init);
      forall y | y in Sort(key, init) ensures key(y) != key(last) {
        MultisetMember(Sort(key, init), y);
        assert y in init;
      }
      InsertAscending(key, last, Sort(key, init));
    }
  }

  lemma HasMember<T>(s: seq<T>)
    requires s != []
    ensures exists x :: x in s
  {
    assert s[0] in s;
  }

  /** A strictly ascending sequence is determined by the set of its elements. */
  lemma {:induction false} AscendingUnique<T>(key: T -> Codes, a: seq<T>, b: seq<T>)
    requires Ascending(key, a) && Ascending(key, b)
    requires forall x :: x in a <==> x in b
    ensures a == b
  {
    if a == [] {
      if b != [] { HasMember(b); }
    } else {
      assert a[0] in b;
      assert b[0] in a;
      if a[0] != b[0] {
        Trichotomy(key(a[0]), key(b[0]));
        assert false;
      }
      AscendingIrreflexive(key, a);
      AscendingIrreflexive(key, b);
      assert a == [a[0]] + a[1..] && b == [b[0]] + b[1..];
      forall x ensures x in a[1..] <==> x in b[1..] {
        assert x in a <==> x == a[0] || x in a[1..];
        assert x in b <==> x == b[0] || x in b[1..];
      }
      AscendingUnique(key, a[1..], b[1..]);
    }
  }

  lemma AscendingIrreflexive<T>(key: T -> Codes, a: seq<T>)
    requires Ascending(key, a)
    ensures forall i, j :: 0 <= i < j < |a| ==> a[i] != a[j]
  {
    forall i, j | 0 <= i < j < |a| ensures a[i] != a[j] {
      Trichotomy(key(a[i]), key(a[j]));
    }
  }

  /** An ascending sequence is its own sorted form. */
  lemma SortFixed<T>(key: T -> Codes, s: seq<T>)
    requires Ascending(key, s)
    ensures Sort(key, s) == s
  {
    forall i, j | 0 <= i < j < |s| ensures key(s[i]) != key(s[j]) {
      Trichotomy(key(s[i]), key(s[j]));
    }
    SortAscending(key, s);
    forall x ensures x in Sort(key, s) <==> x in s {
      MultisetMember(Sort(key, s), x);
      MultisetMember(s, x);
    }
    AscendingUnique(key, Sort(key, s), s);
  }

  // ----- Sorted sets of strings

  predicate IsLeast(m: string, s: set<string>) {
    m in s && forall x | x in s :: x == m || StringLess(m, x)
  }

  lemma {:induction false} LeastExists(s: set<string>)
    requires s != {}
    ensures exists m :: IsLeast(m, s)
  {
    var y :| y in s;
    if s == {y} {
      assert IsLeast(y, s);
    } else {
      LeastExists(s - {y});
      var m :| IsLeast(m, s - {y});
      Trichotomy(CodesOf(m), CodesOf(y));
      if CodesOf(m) == CodesOf(y) { CodesInjective(m, y); }
      if StringLess(m, y) {
        assert IsLeast(m, s);
      } else {
        forall x | x in s ensures x == y || StringLess(y, x) {
          if x != y && x != m {
            assert x in s - {y} && StringLess(m, x);
            Transitive(CodesOf(y), CodesOf(m), CodesOf(x));
          }
        }
        assert IsLeast(y, s);
      }
    }
  }

  lemma LeastUnique(s: set<string>)
    ensures forall m, n :: IsLeast(m, s) && IsLeast(n, s) ==> m == n
  {
    forall m, n | IsLeast(m, s) && IsLeast(n, s) ensures m == n {
      Trichotomy(CodesOf(m), CodesOf(n));
    }
  }

  lemma AscendingFrom(m: string, r: seq<string>, s: set<string>)
    requires IsLeast(m, s) && Ascending(CodesOf, r) && forall x :: x in r <==> x in s - {m}
    ensures Ascending(CodesOf, [m] + r) && forall x :: x in [m] + r <==> x in s
  {
    forall i | 0 <= i < |r| ensures Less(CodesOf(m), CodesOf(r[i])) {
      assert r[i] in r;
      assert StringLess(m, r[i]);
    }
    forall x ensures x in [m] + r <==> x in s {
      assert x in [m] + r <==> x == m || x in r;
    }
  }

  /** `sorted(s)` for a set of strings. */
  function SortedSet(s: set<string>): (r: seq<string>)
    ensures forall x :: x in r <==> x in s
    ensures Ascending(CodesOf, r)
    decreases |s|
  {
    if s == {} then []
    else
      LeastExists(s);
      LeastUnique(s);
      var m :| IsLeast(m, s);
      var r := SortedSet(s - {m});
      AscendingFrom(m, r, s);
      [m] + r
  }
}
