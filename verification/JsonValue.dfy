/** JSON values as Python's `json` module returns them, and the field checks the proof scripts share. */
module JsonValue {
  import opened Prelude

  datatype Json =
    | JNull
    | JBool(b: bool)
    | JInt(n: int)
    | JFloat(r: real)
    | JString(s: string)
    | JArray(items: seq<Json>)
    | JObject(members: map<string, Json>)

  type Members = map<string, Json>

  /** What `dict.get` returns: the member, or null. */
  function Get(m: Members, key: string): Json { if key in m then m[key] else JNull }

  function MembersOf(j: Json): Members { if j.JObject? then j.members else map[] }

  predicate IsText(j: Json) { j.JString? && j.s != [] }

  predicate IsPositive(j: Json) { j.JInt? && j.n > 0 }

  predicate IsHexText(j: Json, n: nat) { j.JString? && IsHex(j.s, n) }

  /** What the field checks let through, at their edges. */
  lemma FieldChecks()
    ensures IsPositive(JInt(1)) && !IsPositive(JInt(0)) && !IsPositive(JBool(true)) && !IsPositive(JFloat(1.0))
    ensures IsText(JString(" ")) && !IsText(JString("")) && !IsText(JNull)
    ensures forall c: char :: IsHexText(JString([c]), 1) <==>
              c in {'0', '1', '2', '3', '4', '5', '6', '7', '8', '9', 'a', 'b', 'c', 'd', 'e', 'f'}
    ensures forall s: string, n: nat | |s| != n :: !IsHexText(JString(s), n)
  {
    forall c: char
      ensures IsHexText(JString([c]), 1) <==>
              c in {'0', '1', '2', '3', '4', '5', '6', '7', '8', '9', 'a', 'b', 'c', 'd', 'e', 'f'}
    {
      assert [c][0] == c;
    }
  }

  predicate HasExactly(m: Members, keys: set<string>) { m.Keys == keys }

  // ----- Equality as Python's `==` has it: numbers by value, truth values among them

  predicate IsNumber(j: Json) { j.JBool? || j.JInt? || j.JFloat? }

  function NumberOf(j: Json): real
    requires IsNumber(j)
  {
    match j
    case JBool(b) => if b then 1.0 else 0.0
    case JInt(n) => n as real
    case JFloat(r) => r
  }

  predicate SameValue(a: Json, b: Json)
    decreases a
  {
    if IsNumber(a) && IsNumber(b) then NumberOf(a) == NumberOf(b)
    else if a.JArray? && b.JArray? then
      |a.items| == |b.items| && forall i | 0 <= i < |a.items| :: SameValue(a.items[i], b.items[i])
    else if a.JObject? && b.JObject? then
      && a.members.Keys == b.members.Keys
      && forall key | key in a.members :: SameValue(a.members[key], b.members[key])
    else a == b
  }

  lemma {:induction false} SameAsItself(a: Json)
    ensures SameValue(a, a)
    decreases a
  {
    match a
    case JArray(items) => forall i | 0 <= i < |items| ensures SameValue(items[i], items[i]) { SameAsItself(items[i]); }
    case JObject(members) =>
      forall key | key in members ensures SameValue(members[key], members[key]) { SameAsItself(members[key]); }
    case _ =>
  }

  /** The value with every number written as a fraction. */
  function Canonical(j: Json): Json
    decreases j
  {
    match j
    case JArray(items) => JArray(seq(|items|, i requires 0 <= i < |items| => Canonical(items[i])))
    case JObject(members) => JObject(map key | key in members :: Canonical(members[key]))
    case _ => if IsNumber(j) then JFloat(NumberOf(j)) else j
  }

  /** Two values are equal exactly when they are the same once their numbers are written alike. */
  lemma {:induction false} SameIffCanonical(a: Json, b: Json)
    ensures SameValue(a, b) <==> Canonical(a) == Canonical(b)
    decreases a
  {
    if a.JArray? && b.JArray? && |a.items| == |b.items| {
      forall i | 0 <= i < |a.items|
        ensures SameValue(a.items[i], b.items[i]) <==> Canonical(a).items[i] == Canonical(b).items[i]
      {
        SameIffCanonical(a.items[i], b.items[i]);
      }
    } else if a.JObject? && b.JObject? && a.members.Keys == b.members.Keys {
      forall key | key in a.members
        ensures SameValue(a.members[key], b.members[key]) <==> Canonical(a).members[key] == Canonical(b).members[key]
      {
        SameIffCanonical(a.members[key], b.members[key]);
      }
      CanonicalKeys(a, b);
    } else if a.JArray? && b.JArray? {
      assert |Canonical(a).items| != |Canonical(b).items|;
    } else if a.JObject? && b.JObject? {
      assert Canonical(a).members.Keys == a.members.Keys && Canonical(b).members.Keys == b.members.Keys;
    }
  }

  lemma CanonicalKeys(a: Json, b: Json)
    requires a.JObject? && b.JObject? && a.members.Keys == b.members.Keys
    ensures Canonical(a) == Canonical(b) <==>
            forall key | key in a.members :: Canonical(a).members[key] == Canonical(b).members[key]
  {
    assert Canonical(a).members.Keys == a.members.Keys && Canonical(b).members.Keys == b.members.Keys;
  }

  lemma SameMembers(a: Members, b: Members)
    requires forall key :: (key in a <==> key in b) && (key in a ==> a[key] == b[key])
    ensures a == b
  {}
}
