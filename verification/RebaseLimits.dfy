/** Where the conflict check alone does not make a rebase sound: on one document, array edits beside a replacement; and undo
    revisions, which leave no usable trace. */
module RebaseLimits {
  import opened Wrappers
  import opened Pointer
  import opened JsonPatch
  import opened OperationMeaning
  import opened CollaborationPatch
  import opened Conflict
  import opened Rebase
  import opened Decimal

  /** The only path an undo revision records. */
  const UNDO_PATHS: seq<string> := ["/"]

  predicate StartsAtEmptyMember(path: string) {
    DecodePointer(path).Some? && [""] <= DecodePointer(path).value
  }

  /** An undo replaces the whole document, yet the path it records only overlaps pointers at or below the
      member named "": every other proposal passes the check, whatever the undo changed. */
  lemma UndoIsInvisible(baseName: string, headName: string, ops: seq<Operation>)
    requires AllApproved(ops)
    ensures CollaborationConflicts(baseName, headName, ops, [UNDO_PATHS]) == [] <==>
            forall k, f | 0 <= k < |ops| && f in ConflictFootprints(ops[k]) :: !StartsAtEmptyMember(f)
  {
    NoConflictsReported(baseName, headName, ops, [UNDO_PATHS]);
    RootTextIsEmptyMember();
    forall k | 0 <= k < |ops|
      ensures ClearOf(ops[k], [UNDO_PATHS][0]) <==>
              forall f | f in ConflictFootprints(ops[k]) :: !StartsAtEmptyMember(f)
    {
      assert PolicyApproved(ops[k]);
      forall f | f in ConflictFootprints(ops[k]) ensures PointersOverlap(f, "/") <==> StartsAtEmptyMember(f) {
        FootprintDecodes(ops[k], f);
        OverlapIsPrefix(f, "/");
        assert DecodePointer(f).value <= [""] <==> DecodePointer(f).value == [""];
      }
      assert UNDO_PATHS[0] == "/" && "/" in UNDO_PATHS;
    }
  }

  /** Rebasing over the undo of a revision: the patch applies to the head exactly when it applies to the undone revision; on
      the head it has the effect it has on the document before, and on the undone revision that effect comes first. */
  ghost predicate RebasesOverUndo(before: Json, undone: Change, ops: seq<Operation>, name: string)
    requires before.Obj? && Commit(before, undone).Some?
  {
    var base, head := Commit(before, undone).value, Stamp(before, name);
    && (ApplyAll(head, ops).Some? <==> ApplyAll(base, ops).Some?)
    && (ApplyAll(base, ops).Some? ==>
          && ApplyAll(before, ops).Some? && ApplyAll(before, ops).value.Obj?
          && ApplyAll(head, ops) == Some(Stamp(ApplyAll(before, ops).value, name))
          && ApplyAll(base, ops) == Commit(ApplyAll(before, ops).value, undone.(ops := Changes(undone.ops))))
  }

  /** Whatever commutes with the undone patch can be rebased over its undo. */
  lemma CommutingRebasesOverUndo(before: Json, undone: Change, ops: seq<Operation>, name: string)
    requires Stamped(before) && AllApproved(ops) && AllApproved(undone.ops) && AllCommute(ops, undone.ops)
    requires Commit(before, undone).Some?
    ensures RebasesOverUndo(before, undone, ops, name)
  {
    RebasePastOne(before, ops, undone);
    StampPastPatch(before, name, ops);
  }

  // ---------------------------------------------------------------------------------------------
  // A replacement beside an edit of the same array, on one document.

  /** The operation edits the array at the place, under this key. */
  predicate EditsArray(d: Operation, place: Tokens, key: string, e: Edit) {
    match d
    case Add(path, v) => Address(path) == Some(place + [key]) && e == Insert(v)
    case Remove(path) => Address(path) == Some(place + [key]) && e == Delete
    case Move(from, path) =>
      && Address(from) == Some(place + [key]) && Address(path).Some? && Front(Address(path).value) == place
      && (Last(Address(path).value) == "-" || ParseIndex(Last(Address(path).value)).Some?)
      && e == Reorder(Target(Last(Address(path).value)))
    case _ => false
  }

  /** The edit of the array comes to assigning the edited array. */
  lemma {:induction false} EditIsAssignment(doc: Json, place: Tokens, key: string, e: Edit)
    requires place != [] && Lookup(doc, place).Some?
    ensures var edited := EditMember(Lookup(doc, place).value, key, e);
            Update(doc, place + [key], e) == if edited.None? then None else Update(doc, place, Assign(edited.value))
    decreases |place|
  {
    var r := place + [key];
    assert r[1..] == place[1..] + [key];
    DeepUpdate(doc, r, e);
    if |place| == 1 {
      assert r[1..] == [key] && place[1..] == [];
      TopUpdate(Child(doc, place[0]).value, [key], e);
    } else {
      EditIsAssignment(Child(doc, place[0]).value, place[1..], key, e);
    }
  }

  lemma {:induction false} AssignTwice(doc: Json, place: Tokens, v: Json, w: Json)
    requires place != [] && Update(doc, place, Assign(v)).Some?
    ensures Update(Update(doc, place, Assign(v)).value, place, Assign(w)) == Update(doc, place, Assign(w))
    decreases |place|
  {
    if |place| == 1 {
      TopUpdate(doc, place, Assign(v));
      TopUpdate(doc, place, Assign(w));
      ReassignedMember(doc, place[0], v, w);
      TopUpdate(Update(doc, place, Assign(v)).value, place, Assign(w));
    } else {
      var child := Child(doc, place[0]).value;
      var edited := Update(child, place[1..], Assign(v)).value;
      AssignTwice(child, place[1..], v, w);
      AssignLooksUp(child, place[1..], w);
      AssignLooksUp(child, place[1..], v);
      AssignedChild(doc, place[0], edited);
      ReassignedMember(doc, place[0], edited, Update(child, place[1..], Assign(w)).value);
    }
  }

  /** What the operation makes of a document with this array in the place. */
  lemma ArrayEdited(doc: Json, d: Operation, place: Tokens, key: string, e: Edit)
    requires place != [] && EditsArray(d, place, key, e) && Lookup(doc, place).Some? && Lookup(doc, place).value.Arr?
    ensures var edited := EditMember(Lookup(doc, place).value, key, e);
            Apply(doc, d) == if edited.None? then None else Update(doc, place, Assign(edited.value))
  {
    EditIsAssignment(doc, place, key, e);
    assert Front(place + [key]) == place;
    if d.Move? {
      MoveIsReorder(doc, place + [key], Address(d.path).value);
    }
  }

  /** On one array: replacing an element before or after the edit comes to the same exactly when the edit leaves the element
      where it is, or the value stands at the index anyway, before and after. */
  lemma ReplacementExactly(xs: seq<Json>, key: string, e: Edit, j: nat, v: Json, ys: seq<Json>)
    requires EditMember(Arr(xs), key, e) == Some(Arr(ys)) && !e.Assign? && j < |xs| && ParseIndex(key) != Some(j)
    ensures (j < |ys| && EditMember(Arr(xs[j := v]), key, e) == Some(Arr(ys[j := v]))) <==>
            (!Disturbs(Arr(xs), key, e, Numeral(j)) || (xs[j] == v && j < |ys| && ys[j] == v))
  {
    NumeralParses(j);
    if e.Insert? && key == "-" {
      assert xs[j := v] + [e.value] == ys[j := v];
    } else {
      ReplacedAt(xs, ParseIndex(key).value, e, j, v, ys);
    }
  }

  /** A shifted element takes its new value along. */
  lemma ReplacedAt(xs: seq<Json>, i: nat, e: Edit, j: nat, v: Json, ys: seq<Json>)
    requires j < |xs| && i != j
    ensures e.Insert? && i <= |xs| && ys == xs[..i] + [e.value] + xs[i..] ==>
              (xs[j := v][..i] + [e.value] + xs[j := v][i..] == ys[j := v] <==> j < i || (xs[j] == v && ys[j] == v))
    ensures e.Delete? && i < |xs| && ys == Without(xs, i) ==>
              (j < |ys| && Without(xs[j := v], i) == ys[j := v] <==> j < i || (xs[j] == v && j < |ys| && ys[j] == v))
    ensures e.Reorder? && i < |xs| && End(e.target, |xs|) < |xs| && ys == Moved(xs, i, e.target) ==>
              (Moved(xs[j := v], i, e.target) == ys[j := v] <==>
               !Between(j, i, End(e.target, |xs|)) || (xs[j] == v && ys[j] == v))
  {
    if e.Insert? && i < j && ys == xs[..i] + [e.value] + xs[i..] {
      assert xs[j := v][..i] + [e.value] + xs[j := v][i..] == ys[j + 1 := v];
      EitherPosition(ys, j + 1, j, v);
    } else if e.Delete? && i < j && ys == Without(xs, i) {
      assert Without(xs[j := v], i) == ys[j - 1 := v];
      EitherPosition(ys, j - 1, j, v);
    } else if e.Reorder? && i < |xs| && End(e.target, |xs|) < |xs| && ys == Moved(xs, i, e.target) && Between(j, i, End(e.target, |xs|)) {
      var m := if i < j then j - 1 else j + 1;
      MovedTakesAlong(xs, i, e.target, j, v);
      EitherPosition(ys, m, j, v);
    } else {
      EditPastAssignAt(xs, i, e, j, v);
    }
  }

  lemma MovedTakesAlong(xs: seq<Json>, i: nat, target: Option<nat>, j: nat, v: Json)
    requires i < |xs| && End(target, |xs|) < |xs| && j < |xs| && i != j && Between(j, i, End(target, |xs|))
    ensures var m := if i < j then j - 1 else j + 1;
            m < |xs| && Moved(xs[j := v], i, target) == Moved(xs, i, target)[m := v] && Moved(xs, i, target)[m] == xs[j]
  {
  }

  lemma EitherPosition(ys: seq<Json>, m: nat, j: nat, v: Json)
    requires m < |ys| && m != j
    ensures j < |ys| && ys[m := v] == ys[j := v] <==> ys[m] == v && j < |ys| && ys[j] == v
  {
    if j < |ys| && ys[m := v] == ys[j := v] {
      assert ys[m := v][m] == v && ys[j := v][j] == v;
    }
    if j < |ys| && ys[m] == v && ys[j] == v {
      assert ys[m := v] == ys && ys[j := v] == ys;
    }
  }

  lemma EqualArrays(doc: Json, place: Tokens, xs: seq<Json>, ys: seq<Json>)
    requires place != [] && Lookup(doc, place).Some?
    ensures Update(doc, place, Assign(Arr(xs))).Some? && Update(doc, place, Assign(Arr(ys))).Some?
    ensures Update(doc, place, Assign(Arr(xs))) == Update(doc, place, Assign(Arr(ys))) <==> xs == ys
  {
    AssignLooksUp(doc, place, Arr(xs));
    AssignLooksUp(doc, place, Arr(ys));
  }

  /** On every document with an array at the place: a replacement of one element beside an operation that edits the array
      comes to the same before and after the operation exactly when the element is not shifted, or the value stands at its
      index anyway, before and after. */
  lemma ArrayRebaseExactly(doc: Json, d: Operation, place: Tokens, key: string, e: Edit, path: string, j: nat, v: Json)
    requires doc.Obj? && place != [] && EditsArray(d, place, key, e) && Address(path) == Some(place + [Numeral(j)])
    requires Lookup(doc, place).Some? && Lookup(doc, place).value.Arr? && j < |Lookup(doc, place).value.items|
    requires Apply(doc, d).Some? && ParseIndex(key) != Some(j)
    ensures var op, xs := Replace(path, v), Lookup(doc, place).value.items;
            && Apply(doc, op).Some? && EditMember(Arr(xs), key, e).Some? && EditMember(Arr(xs), key, e).value.Arr?
            && var ys := EditMember(Arr(xs), key, e).value.items;
            (Apply(Apply(doc, d).value, op).Some? && Apply(Apply(doc, d).value, op) == Apply(Apply(doc, op).value, d) <==>
             !Disturbs(Arr(xs), key, e, Numeral(j)) || (xs[j] == v && j < |ys| && ys[j] == v))
  {
    var op, xs := Replace(path, v), Lookup(doc, place).value.items;
    ArrayEdited(doc, d, place, key, e);
    var ys := EditMember(Arr(xs), key, e).value.items;
    var after := Apply(doc, d).value;
    NumeralParses(j);
    AssignLooksUp(doc, place, Arr(ys));
    EditIsAssignment(doc, place, Numeral(j), Assign(v));
    AssignLooksUp(doc, place, Arr(xs[j := v]));
    EditIsAssignment(after, place, Numeral(j), Assign(v));
    var patched := Apply(doc, op).value;
    ArrayEdited(patched, d, place, key, e);
    ReplacementExactly(xs, key, e, j, v, ys);
    AssignTwice(doc, place, Arr(xs[j := v]), EditMember(Arr(xs[j := v]), key, e).GetOr(Null));
    if j < |ys| {
      AssignTwice(doc, place, Arr(ys), Arr(ys[j := v]));
      var zs := EditMember(Arr(xs[j := v]), key, e);
      if zs.Some? {
        EqualArrays(doc, place, zs.value.items, ys[j := v]);
      }
    }
  }
}
