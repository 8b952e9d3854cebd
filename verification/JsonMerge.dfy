/** JSON Merge Patch (section 2 of RFC 7396). */
module JsonMerge {
  import opened JsonValue

  /** The fate of each member: removed by a null, patched by anything else, kept when the patch does not name it. */
  function Merged(target: Json, patch: Json): Json
    decreases patch
  {
    if !patch.JObject? then patch
    else
      var base := MembersOf(target);
      JObject(map key | key in base.Keys + patch.members.Keys && !(key in patch.members && patch.members[key].JNull?) ::
                if key in patch.members then Merged(Get(base, key), patch.members[key]) else base[key])
  }

  // ----- The procedure of the standard, for any order of the patch's members

  function ApplyMember(result: Members, patch: Members, key: string): Members
    requires key in patch
  {
    if patch[key].JNull? then result - {key} else result[key := Merged(Get(result, key), patch[key])]
  }

  function ApplyInOrder(result: Members, patch: Members, order: seq<string>): Members
    requires forall key | key in order :: key in patch
    decreases |order|
  {
    if order == [] then result else ApplyInOrder(ApplyMember(result, patch, order[0]), patch, order[1..])
  }

  ghost predicate Lists(order: seq<string>, keys: set<string>) {
    (forall key :: key in order <==> key in keys) && forall i, j | 0 <= i < j < |order| :: order[i] != order[j]
  }

  /** A member's value after the loop depends only on whether the loop has reached it. */
  lemma {:induction false} ApplyInOrderAt(result: Members, patch: Members, order: seq<string>, key: string)
    requires forall k | k in order :: k in patch
    requires forall i, j | 0 <= i < j < |order| :: order[i] != order[j]
    ensures var after := ApplyInOrder(result, patch, order);
      if key !in order then (key in after <==> key in result) && Get(after, key) == Get(result, key)
      else if patch[key].JNull? then key !in after
      else key in after && after[key] == Merged(Get(result, key), patch[key])
    decreases |order|
  {
    if order != [] {
      ApplyInOrderAt(ApplyMember(result, patch, order[0]), patch, order[1..], key);
      assert key in order <==> key == order[0] || key in order[1..];
    }
  }

  /** Every order of the members gives the same result, the one the standard's function returns. */
  lemma OrderDoesNotMatter(target: Json, patch: Json, order: seq<string>)
    requires patch.JObject? && Lists(order, patch.members.Keys)
    ensures JObject(ApplyInOrder(MembersOf(target), patch.members, order)) == Merged(target, patch)
  {
    var after, merged := ApplyInOrder(MembersOf(target), patch.members, order), Merged(target, patch).members;
    forall key ensures (key in after <==> key in merged) && (key in after ==> after[key] == merged[key]) {
      ApplyInOrderAt(MembersOf(target), patch.members, order, key);
    }
    SameMembers(after, merged);
  }

  /** A patch that is no object replaces whatever the target is, and against one that is, any other target counts as an
      empty object. */
  lemma MergeReplaces(target: Json, patch: Json)
    ensures !patch.JObject? ==> Merged(target, patch) == patch
    ensures patch.JObject? && !target.JObject? ==> Merged(target, patch) == Merged(JObject(map[]), patch)
  {}

  /** `merge_rfc7396`: works through the patch's members on a copy of the base. */
  method MergeRfc7396(base: Json, patch: Json) returns (merged: Json)
    ensures merged == Merged(base, patch)
    decreases patch
  {
    if !patch.JObject? { return patch; }
    var result := MembersOf(base);
    var rest := patch.members.Keys;
    ghost var order: seq<string> := [];
    while rest != {}
      invariant rest <= patch.members.Keys && Lists(order, patch.members.Keys - rest)
      invariant ApplyInOrder(MembersOf(base), patch.members, order) == result
      decreases |rest|
    {
      var key :| key in rest;
      rest := rest - {key};
      ghost var before := result;
      if patch.members[key].JNull? {
        result := result - {key};
      } else {
        var member := MergeRfc7396(Get(result, key), patch.members[key]);
        result := result[key := member];
      }
      ApplyLast(MembersOf(base), patch.members, order, key);
      order := order + [key];
    }
    OrderDoesNotMatter(base, patch, order);
    return JObject(result);
  }

  lemma {:induction false} ApplyLast(result: Members, patch: Members, order: seq<string>, key: string)
    requires key in patch && forall k | k in order :: k in patch
    ensures ApplyInOrder(result, patch, order + [key]) == ApplyMember(ApplyInOrder(result, patch, order), patch, key)
    decreases |order|
  {
    if order != [] {
      ApplyLast(ApplyMember(result, patch, order[0]), patch, order[1..], key);
      assert (order + [key])[1..] == order[1..] + [key];
    } else {
      assert ([key])[1..] == [];
    }
  }

  // ----- Algebra

  /** Applying a patch a second time changes nothing. */
  lemma {:induction false} MergeIdempotent(target: Json, patch: Json)
    ensures Merged(Merged(target, patch), patch) == Merged(target, patch)
    decreases patch
  {
    if patch.JObject? {
      var once := Merged(target, patch);
      var twice := Merged(once, patch);
      forall key | key in once.members ensures key in twice.members && twice.members[key] == once.members[key] {
        if key in patch.members { MergeIdempotent(Get(MembersOf(target), key), patch.members[key]); }
      }
      assert twice.members.Keys == once.members.Keys;
    }
  }

  /** No object inside the value has a null member; what arrays hold is not looked at. */
  predicate NullFree(j: Json)
    decreases j
  {
    j.JObject? ==> forall key | key in j.members :: !j.members[key].JNull? && NullFree(j.members[key])
  }

  /** A merge never leaves a null member in an object that had none, so a null in a patch can only mean removal. */
  lemma {:induction false} MergeNullFree(target: Json, patch: Json)
    requires NullFree(target)
    ensures NullFree(Merged(target, patch))
    decreases patch
  {
    if patch.JObject? {
      var base, merged := MembersOf(target), Merged(target, patch);
      forall key | key in merged.members ensures !merged.members[key].JNull? && NullFree(merged.members[key]) {
        if key in patch.members { MergeNullFree(Get(base, key), patch.members[key]); }
      }
    }
  }

  /** Against anything but an object, a null-free patch is its own result. */
  lemma {:induction false} MergeIntoNothing(target: Json, patch: Json)
    requires NullFree(patch) && !target.JObject?
    ensures Merged(target, patch) == patch
    decreases patch
  {
    if patch.JObject? {
      var merged := Merged(target, patch);
      forall key | key in patch.members ensures merged.members[key] == patch.members[key] {
        MergeIntoNothing(JNull, patch.members[key]);
      }
      assert merged.members.Keys == patch.members.Keys;
    }
  }
}
