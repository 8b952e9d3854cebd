/** Splitting a text at a separator, and what the parts say about a path. */
module Paths {
  function Last<T>(parts: seq<seq<T>>): seq<T>
    requires parts != []
  {
    parts[|parts| - 1]
  }

  /** The parts with more text at the end of the last. */
  function Extend<T>(parts: seq<seq<T>>, more: seq<T>): seq<seq<T>>
    requires parts != []
  {
    parts[..|parts| - 1] + [Last(parts) + more]
  }

  /** The parts between the separators, at least one. */
  function Split<T(==)>(s: seq<T>, sep: T): (parts: seq<seq<T>>)
    ensures parts != []
  {
    if s == [] then [[]]
    else
      var n := |s| - 1;
      var before := Split(s[..n], sep);
      if s[n] == sep then before + [[]]
      else Extend(before, [s[n]])
  }

  function Join<T>(parts: seq<seq<T>>, sep: T): seq<T>
    requires parts != []
  {
    if |parts| == 1 then parts[0] else Join(parts[..|parts| - 1], sep) + [sep] + Last(parts)
  }

  ghost predicate Unbroken<T>(parts: seq<seq<T>>, sep: T) { forall p | p in parts :: sep !in p }

  lemma ExtendTwice<T>(parts: seq<seq<T>>, a: seq<T>, b: seq<T>)
    requires parts != []
    ensures Extend(Extend(parts, a), b) == Extend(parts, a + b)
  {
    assert Extend(parts, a)[..|parts| - 1] == parts[..|parts| - 1];
    assert (Last(parts) + a) + b == Last(parts) + (a + b);
  }

  lemma ExtendNothing<T>(parts: seq<seq<T>>)
    requires parts != []
    ensures Extend(parts, []) == parts
  {
    assert Last(parts) + [] == Last(parts);
  }

  lemma ExtendEmpty<T>(parts: seq<seq<T>>, last: seq<T>)
    ensures Extend(parts + [[]], last) == parts + [last]
  {
    assert (parts + [[]])[..|parts|] == parts && [] + last == last;
  }

  lemma SplitMore<T>(s: seq<T>, sep: T, x: T)
    ensures Split(s + [x], sep) == if x == sep then Split(s, sep) + [[]] else Extend(Split(s, sep), [x])
  {
    assert (s + [x])[..|s|] == s;
  }

  lemma {:induction false} SplitPart<T>(s: seq<T>, sep: T, part: seq<T>)
    requires sep !in part
    ensures Split(s + part, sep) == Extend(Split(s, sep), part)
    decreases |part|
  {
    if part == [] {
      assert s + part == s;
      ExtendNothing(Split(s, sep));
    } else {
      var init, x := part[..|part| - 1], part[|part| - 1];
      assert part == init + [x] && s + part == (s + init) + [x];
      SplitPart(s, sep, init);
      SplitMore(s + init, sep, x);
      ExtendTwice(Split(s, sep), init, [x]);
    }
  }

  /** Splitting undoes joining: there is one way to cut a text into unbroken parts. */
  lemma {:induction false} SplitOfJoin<T>(parts: seq<seq<T>>, sep: T)
    requires parts != [] && Unbroken(parts, sep)
    ensures Split(Join(parts, sep), sep) == parts
    decreases |parts|
  {
    var front, last := parts[..|parts| - 1], Last(parts);
    assert parts == front + [last];
    if front == [] {
      SplitPart([], sep, last);
      assert [] + last == last;
      ExtendEmpty(front, last);
      assert front + [[]] == [[]];
    } else {
      var s := Join(front, sep);
      SplitOfJoin(front, sep);
      SplitMore(s, sep, sep);
      SplitPart(s + [sep], sep, last);
      ExtendEmpty(front, last);
    }
  }

  lemma JoinMore<T>(front: seq<seq<T>>, sep: T, last: seq<T>)
    requires front != []
    ensures Join(front + [last], sep) == Join(front, sep) + [sep] + last
  {
    assert (front + [last])[..|front|] == front;
  }

  lemma {:induction false} JoinGrows<T>(parts: seq<seq<T>>, sep: T, x: T)
    requires parts != []
    ensures Join(Extend(parts, [x]), sep) == Join(parts, sep) + [x]
  {
    var front := parts[..|parts| - 1];
    if front != [] {
      JoinMore(front, sep, Last(parts) + [x]);
      assert Join(front, sep) + [sep] + (Last(parts) + [x]) == Join(parts, sep) + [x];
    }
  }

  /** Joining undoes splitting, and no part holds the separator. */
  lemma {:induction false} JoinOfSplit<T>(s: seq<T>, sep: T)
    ensures Join(Split(s, sep), sep) == s && Unbroken(Split(s, sep), sep)
    decreases |s|
  {
    if s != [] {
      var init, x := s[..|s| - 1], s[|s| - 1];
      var before := Split(init, sep);
      JoinOfSplit(init, sep);
      assert s == init + [x];
      if x == sep {
        JoinMore(before, sep, []);
        assert init + [sep] + [] == s;
      } else {
        JoinGrows(before, sep, x);
      }
    }
  }
}
