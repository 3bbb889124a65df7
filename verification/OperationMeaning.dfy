/** What each of the six operations does to what a reader finds in the document (section 4 of RFC 6902), told by paths. */
module OperationMeaning {
  import opened Wrappers
  import opened JsonPatch

  // ---------------------------------------------------------------------------------------------
  // Edits inside a container.

  /** An edit below a place is the edit of what stands there. */
  lemma {:induction false} EditWithin(doc: Json, place: Tokens, r: Tokens, e: Edit)
    requires Below(place, r) && Lookup(doc, place).Some?
    ensures var edited := Update(Lookup(doc, place).value, r[|place|..], e);
            && (Update(doc, r, e).Some? <==> edited.Some?)
            && (edited.Some? ==> Lookup(Update(doc, r, e).value, place) == edited)
    decreases |place|
  {
    if place == [] {
      assert r[0..] == r;
    } else {
      assert r[0] == r[..|place|][0] == place[0];
      assert r[1..][..|place| - 1] == place[1..] && r[1..][|place| - 1..] == r[|place|..];
      var child := Child(doc, r[0]).value;
      EditWithin(child, place[1..], r[1..], e);
      DeepUpdate(doc, r, e);
      if Update(child, r[1..], e).Some? {
        AssignSome(doc, r[0], Update(child, r[1..], e).value);
        AssignedChild(doc, r[0], Update(child, r[1..], e).value);
      }
    }
  }

  lemma EditDirectly(doc: Json, r: Tokens, e: Edit)
    requires r != [] && Lookup(doc, Front(r)).Some?
    ensures var edited := EditMember(Lookup(doc, Front(r)).value, Last(r), e);
            && (Update(doc, r, e).Some? <==> edited.Some?)
            && (edited.Some? ==> Lookup(Update(doc, r, e).value, Front(r)) == edited)
  {
    EditWithin(doc, Front(r), r, e);
    assert r[|Front(r)|..] == [Last(r)];
    TopUpdate(Lookup(doc, Front(r)).value, [Last(r)], e);
  }

  lemma {:induction false} AssignLooksUp(doc: Json, q: Tokens, v: Json)
    requires q != []
    ensures Update(doc, q, Assign(v)).Some? <==> Lookup(doc, q).Some?
    ensures Update(doc, q, Assign(v)).Some? ==> Lookup(Update(doc, q, Assign(v)).value, q) == Some(v)
    ensures Lookup(doc, q) == Some(v) ==> Update(doc, q, Assign(v)) == Some(doc)
    decreases |q|
  {
    if |q| == 1 {
      TopUpdate(doc, q, Assign(v));
      AssignOne(doc, q[0], v);
      if Update(doc, q, Assign(v)).Some? {
        TopUpdate(Update(doc, q, Assign(v)).value, q, Assign(v));
      }
    } else if Child(doc, q[0]).Some? {
      var child := Child(doc, q[0]).value;
      DeepUpdate(doc, q, Assign(v));
      AssignLooksUp(child, q[1..], v);
      if Update(child, q[1..], Assign(v)).Some? {
        var edited := Update(child, q[1..], Assign(v)).value;
        AssignOne(doc, q[0], edited);
        AssignOne(doc, q[0], child);
      }
    }
  }

  lemma AssignOne(c: Json, key: string, v: Json)
    ensures EditMember(c, key, Assign(v)).Some? <==> Child(c, key).Some?
    ensures Child(c, key).Some? ==> Child(EditMember(c, key, Assign(v)).value, key) == Some(v)
    ensures Child(c, key) == Some(v) ==> EditMember(c, key, Assign(v)) == Some(c)
  {
    if Child(c, key) == Some(v) {
      if c.Obj? {
        assert c.members[key := v] == c.members;
      } else {
        assert c.items[ParseIndex(key).value := v] == c.items;
      }
    }
  }

  // ---------------------------------------------------------------------------------------------
  // What an edit changes.

  /** The value stands at the index, and what was there and behind has moved on by one. */
  predicate Inserted(xs: seq<Json>, i: nat, v: Json, ys: seq<Json>) {
    && i <= |xs| && |ys| == |xs| + 1 && ys[i] == v
    && (forall k :: 0 <= k < i ==> ys[k] == xs[k])
    && (forall k :: i <= k < |xs| ==> ys[k + 1] == xs[k])
  }

  /** Nothing that a path outside the place names has changed. */
  ghost predicate SameOutside(doc: Json, after: Json, place: Tokens) {
    forall q :: !Overlap(place, q) ==> Lookup(after, q) == Lookup(doc, q)
  }

  /** Where an addition under this token goes: the end, or in front of the element with the index. */
  function Slot(key: string, length: nat): Option<nat> {
    if key == "-" then Some(length)
    else
      var i :- ParseIndex(key);
      if i <= length then Some(i) else None
  }

  lemma LookupAt(doc: Json, p: Tokens)
    requires p != []
    ensures Lookup(doc, p) ==
            if Lookup(doc, Front(p)).None? then None else Child(Lookup(doc, Front(p)).value, Last(p))
  {
    SplitLookup(doc, Front(p), Last(p));
    assert Front(p) + [Last(p)] == p;
  }

  lemma {:induction false} SplitLookup(doc: Json, place: Tokens, key: string)
    ensures Lookup(doc, place + [key]) == if Lookup(doc, place).None? then None else Child(Lookup(doc, place).value, key)
    decreases |place|
  {
    if place == [] {
      assert ([] + [key])[1..] == [];
    } else {
      assert (place + [key])[1..] == place[1..] + [key];
      if Child(doc, place[0]).Some? {
        SplitLookup(Child(doc, place[0]).value, place[1..], key);
      }
    }
  }

  lemma {:induction false} UpdateNeedsContainer(doc: Json, p: Tokens, e: Edit)
    requires p != [] && Update(doc, p, e).Some?
    ensures Lookup(doc, Front(p)).Some?
    decreases |p|
  {
    if |p| >= 2 {
      TailParts(p);
      UpdateNeedsContainer(Child(doc, p[0]).value, p[1..], e);
    } else {
      assert Front(p) == [];
    }
  }

  /** An edit of an object's member, or in place, leaves every path alone that does not overlap. */
  lemma SameBeside(doc: Json, p: Tokens, e: Edit)
    requires p != [] && Update(doc, p, e).Some?
    requires e.Assign? || (Lookup(doc, Front(p)).Some? && Lookup(doc, Front(p)).value.Obj?)
    ensures SameOutside(doc, Update(doc, p, e).value, p)
  {
    forall q | !Overlap(p, q) ensures Lookup(Update(doc, p, e).value, q) == Lookup(doc, q) {
      LookupPastUpdate(doc, p, e, q);
    }
  }

  lemma PrefixOf(p: Tokens, q: Tokens)
    requires p != []
    ensures !Overlap(Front(p), q) ==> !Overlap(p, q) && !Below(Front(p), q)
  {
    if Overlap(p, q) {
      if p <= q {
        assert Front(p) == q[..|p|][..|p| - 1] == q[..|p| - 1];
      } else if |q| <= |p| - 1 {
        assert q == p[..|q|] == Front(p)[..|q|];
      }
    }
  }

  /** An edit of an array leaves everything outside the array alone. */
  lemma SameOutsideArray(doc: Json, p: Tokens, e: Edit)
    requires p != [] && Update(doc, p, e).Some?
    ensures SameOutside(doc, Update(doc, p, e).value, Front(p))
  {
    forall q | !Overlap(Front(p), q) ensures Lookup(Update(doc, p, e).value, q) == Lookup(doc, q) {
      PrefixOf(p, q);
      LookupPastUpdate(doc, p, e, q);
    }
  }

  // ---------------------------------------------------------------------------------------------
  // The operations.

  /** A test passes exactly when replacing the value would change nothing, and changes nothing itself. */
  lemma TestMeaning(doc: Json, path: string, v: Json)
    ensures Apply(doc, Test(path, v)).Some? <==> Apply(doc, Replace(path, v)) == Some(doc)
    ensures Apply(doc, Test(path, v)).Some? <==> Address(path).Some? && Lookup(doc, Address(path).value) == Some(v)
    ensures Apply(doc, Test(path, v)).Some? ==> Apply(doc, Test(path, v)) == Some(doc)
  {
    if Address(path).Some? {
      AssignLooksUp(doc, Address(path).value, v);
    }
  }

  /** A replacement needs a value in place, puts the new one there and changes nothing beside it. */
  lemma ReplaceMeaning(doc: Json, path: string, v: Json)
    requires Address(path).Some?
    ensures var p, after := Address(path).value, Apply(doc, Replace(path, v));
            && (after.Some? <==> Lookup(doc, p).Some?)
            && (after.Some? ==> Lookup(after.value, p) == Some(v) && SameOutside(doc, after.value, p))
  {
    var p := Address(path).value;
    AssignLooksUp(doc, p, v);
    if Update(doc, p, Assign(v)).Some? {
      SameBeside(doc, p, Assign(v));
    }
  }

  lemma AddToObject(doc: Json, p: Tokens, v: Json)
    requires p != [] && Lookup(doc, Front(p)).Some? && Lookup(doc, Front(p)).value.Obj?
    ensures var after := Update(doc, p, Insert(v));
            after.Some? && Lookup(after.value, p) == Some(v) && SameOutside(doc, after.value, p)
  {
    EditDirectly(doc, p, Insert(v));
    LookupAt(Update(doc, p, Insert(v)).value, p);
    SameBeside(doc, p, Insert(v));
  }

  lemma AddToArray(doc: Json, p: Tokens, v: Json)
    requires p != [] && Lookup(doc, Front(p)).Some? && Lookup(doc, Front(p)).value.Arr?
    ensures var xs, after := Lookup(doc, Front(p)).value.items, Update(doc, p, Insert(v));
            && (after.Some? <==> Slot(Last(p), |xs|).Some?)
            && (after.Some? ==>
                  && Lookup(after.value, Front(p)).Some? && Lookup(after.value, Front(p)).value.Arr?
                  && Inserted(xs, Slot(Last(p), |xs|).value, v, Lookup(after.value, Front(p)).value.items)
                  && SameOutside(doc, after.value, Front(p)))
  {
    EditDirectly(doc, p, Insert(v));
    if Update(doc, p, Insert(v)).Some? {
      SameOutsideArray(doc, p, Insert(v));
    }
  }

  /** An addition needs the container: to an object it adds the member or replaces it, into an array it inserts. */
  lemma AddMeaning(doc: Json, path: string, v: Json)
    requires Address(path).Some?
    ensures var p, after := Address(path).value, Apply(doc, Add(path, v));
            match Lookup(doc, Front(p))
            case None => after.None?
            case Some(Obj(_)) => after.Some? && Lookup(after.value, p) == Some(v) && SameOutside(doc, after.value, p)
            case Some(Arr(xs)) =>
              && (after.Some? <==> Slot(Last(p), |xs|).Some?)
              && (after.Some? ==>
                    && Lookup(after.value, Front(p)).Some? && Lookup(after.value, Front(p)).value.Arr?
                    && Inserted(xs, Slot(Last(p), |xs|).value, v, Lookup(after.value, Front(p)).value.items)
                    && SameOutside(doc, after.value, Front(p)))
            case Some(_) => after.None?
  {
    var p := Address(path).value;
    if Update(doc, p, Insert(v)).Some? {
      UpdateNeedsContainer(doc, p, Insert(v));
    }
    match Lookup(doc, Front(p))
    case None =>
    case Some(Obj(_)) => AddToObject(doc, p, v);
    case Some(Arr(_)) => AddToArray(doc, p, v);
    case Some(_) => EditDirectly(doc, p, Insert(v));
  }

  /** A removal needs the value; from an object it takes the member, from an array the element. */
  lemma RemoveMeaning(doc: Json, path: string)
    requires Address(path).Some?
    ensures var p, after := Address(path).value, Apply(doc, Remove(path));
            && (after.Some? <==> Lookup(doc, p).Some?)
            && (after.Some? ==>
                  match Lookup(doc, Front(p))
                  case Some(Obj(_)) => Lookup(after.value, p).None? && SameOutside(doc, after.value, p)
                  case Some(Arr(xs)) =>
                    && ParseIndex(Last(p)).Some?
                    && Lookup(after.value, Front(p)).Some? && Lookup(after.value, Front(p)).value.Arr?
                    && var ys := Lookup(after.value, Front(p)).value.items;
                    Inserted(ys, ParseIndex(Last(p)).value, Lookup(doc, p).value, xs)
                    && SameOutside(doc, after.value, Front(p))
                  case _ => false)
  {
    var p := Address(path).value;
    LookupAt(doc, p);
    if Lookup(doc, Front(p)).Some? {
      EditDirectly(doc, p, Delete);
      if Update(doc, p, Delete).Some? {
        LookupAt(Update(doc, p, Delete).value, p);
        SameOutsideArray(doc, p, Delete);
        if Lookup(doc, Front(p)).value.Obj? {
          SameBeside(doc, p, Delete);
        }
      }
    } else if Update(doc, p, Delete).Some? {
      UpdateNeedsContainer(doc, p, Delete);
    }
  }

  /** A copy adds what stands at its source. */
  lemma CopyMeaning(doc: Json, from: string, path: string)
    requires Address(from).Some? && Address(path).Some?
    ensures var source := Lookup(doc, Address(from).value);
            Apply(doc, Copy(from, path)) == if source.None? then None else Apply(doc, Add(path, source.value))
  {
  }

  /** A move removes the value and adds it, unless it would go into itself. */
  lemma MoveMeaning(doc: Json, from: string, path: string)
    requires Address(from).Some? && Address(path).Some?
    ensures var source := Lookup(doc, Address(from).value);
            Apply(doc, Move(from, path)) ==
            if source.None? || Address(from).value < Address(path).value then None
            else ApplyAll(doc, [Remove(from), Add(path, source.value)])
  {
    var source := Lookup(doc, Address(from).value);
    if source.Some? {
      var add := Add(path, source.value);
      assert [Remove(from), add][1..] == [add];
      if Apply(doc, Remove(from)).Some? {
        var without := Apply(doc, Remove(from)).value;
        assert [add][1..] == [] && ApplyAll(without, [add]) == Apply(without, add);
      }
    }
  }

  /** A patch that applies gets to each of its operations. */
  lemma {:induction false} ReachesOperation(doc: Json, ops: seq<Operation>, k: nat)
    requires ApplyAll(doc, ops).Some? && k < |ops|
    ensures ApplyAll(doc, ops[..k]).Some? && Apply(ApplyAll(doc, ops[..k]).value, ops[k]).Some?
    decreases k
  {
    if k > 0 {
      assert ops[..k][1..] == ops[1..][..k - 1];
      ReachesOperation(Apply(doc, ops[0]).value, ops[1..], k - 1);
    }
  }
}
