/** Exactly which committed operations can be undone without spoiling a proposal based on them: an undo records one path
    that addresses the member named by the empty string, so nothing else is ever reported. */
module UndoLimits {
  import opened Wrappers
  import opened Pointer
  import opened JsonPatch
  import opened OperationMeaning
  import opened CollaborationPatch
  import opened Conflict
  import opened Rebase
  import opened ArrayShifts
  import opened DetectionLimits
  import opened RebaseLimits

  /** Detection reports nothing beside an undo. */
  ghost predicate Unreported(op: Operation) {
    ClearOf(op, UNDO_PATHS)
  }

  ghost predicate AllUnreported(ops: seq<Operation>) {
    forall op :: op in ops ==> Unreported(op)
  }

  /** A copy or move onto itself changes nothing in an object. */
  predicate OntoItself(d: Operation)
    requires Addressable(d)
  {
    (d.Copy? || d.Move?) && Address(d.from) == Address(d.path)
  }

  /** Proposals can touch what the operation touches without being reported. A copy or move of a top-level member onto
      itself only shows when the member goes, and the removal of a member with the name of an index is reported. */
  predicate Exposed(d: Operation)
    requires Addressable(d)
  {
    && Applicable(d) && !d.Test?
    && exists r :: r in Places(d) && r[0] != "" && !(OntoItself(d) && |r| == 1 && IsArrayIndex(r[0]))
  }

  /** Whatever the document before, the patch can be rebased over the undo of the operation. */
  ghost predicate AlwaysRebasesOverUndo(ops: seq<Operation>, d: Operation) {
    forall doc, undone, name :: Stamped(doc) && Commit(doc, Change([d], undone)).Some? ==>
                                  RebasesOverUndo(doc, Change([d], undone), ops, name)
  }

  lemma StartsEmpty(g: Tokens)
    requires g != []
    ensures [""] <= g <==> g[0] == ""
  {
  }

  lemma UnreportedFootprint(op: Operation, g: Tokens)
    requires PolicyApproved(op) && Addressable(op) && Unreported(op) && g in Footprint(op)
    ensures g != [] && g[0] != ""
  {
    var f := FootprintHasText(op, g);
    FootprintDecodes(op, f);
    RootTextIsEmptyMember();
    assert "/" in UNDO_PATHS;
    OverlapIsPrefix(f, "/");
    StartsEmpty(g);
  }

  // ---------------------------------------------------------------------------------------------
  // Hidden operations are harmless.

  lemma HiddenCommutes(op: Operation, d: Operation)
    requires PolicyApproved(op) && PolicyApproved(d) && Addressable(op) && Addressable(d) && !d.Test? && Unreported(op)
    requires forall r :: r in Places(d) ==> r[0] == ""
    ensures Commutes(op, d)
  {
    PlaceFootprints(op);
    forall g, r | g in Footprint(op) && r in Places(d) ensures !Overlap(g, r) {
      UnreportedFootprint(op, g);
      assert g[0] != r[0];
    }
    forall doc | Stamped(doc) && Apply(doc, d).Some? ensures Exchange(doc, op, d) {
      forall q | q in Places(op) ensures Leaves(doc, d, q) {
        assert q in Footprint(op);
        UnreportedFootprint(op, q);
        HiddenShiftsNothing(d, q);
        UnshiftedIsLeft(doc, d, q);
      }
      OperationsExchange(doc, op, d);
    }
  }

  lemma SharesHead(place: Tokens, q: Tokens)
    requires place != [] && q != []
    ensures Below(place, q) ==> q[0] == place[0]
  {
    if Below(place, q) {
      assert q[..|place|][0] == q[0];
    }
  }

  lemma HiddenShiftsNothing(d: Operation, q: Tokens)
    requires Addressable(d) && (forall r :: r in Places(d) ==> r[0] == "") && q != [] && q[0] != ""
    ensures !Shifts(d, q)
  {
    forall r | r in Places(d) && |r| >= 2 ensures !Below(Front(r), q) {
      SharesHead(Front(r), q);
      assert Front(r)[0] == r[0];
    }
    assert Address(d.path).value in Places(d);
    if d.Move? || d.Copy? {
      assert Address(d.from).value in Places(d);
    }
  }

  /** An unreported operation never takes away a top-level member with the name of an index. */
  lemma IndexMemberStays(doc: Json, op: Operation, key: string)
    requires doc.Obj? && key in doc.members && IsArrayIndex(key) && PolicyApproved(op) && Addressable(op) && Unreported(op)
    requires Apply(doc, op).Some?
    ensures Apply(doc, op).value.Obj? && key in Apply(doc, op).value.members
  {
    var p := Address(op.path).value;
    match op
    case Add(_, v) => MemberSurvives(doc, p, Insert(v), key);
    case Replace(_, v) => MemberSurvives(doc, p, Assign(v), key);
    case Test(_, _) =>
    case Copy(source, _) => MemberSurvives(doc, p, Insert(Lookup(doc, Address(source).value).value), key);
    case Remove(_) =>
      RemovalIsReported(op, op.path, key);
      MemberSurvives(doc, p, Delete, key);
    case Move(source, _) =>
      var from := Address(source).value;
      RemovalIsReported(op, source, key);
      MemberSurvives(doc, from, Delete, key);
      MemberSurvives(Update(doc, from, Delete).value, p, Insert(Lookup(doc, from).value), key);
  }

  lemma MemberSurvives(doc: Json, p: Tokens, e: Edit, key: string)
    requires doc.Obj? && key in doc.members && p != [] && Update(doc, p, e).Some? && (e.Delete? ==> p != [key])
    ensures Update(doc, p, e).value.Obj? && key in Update(doc, p, e).value.members
  {
    if |p| == 1 {
      assert p == [p[0]];
    }
  }

  lemma RemovalIsReported(op: Operation, path: string, key: string)
    requires PolicyApproved(op) && Addressable(op) && Unreported(op) && IsArrayIndex(key) && IsStructural(op)
    requires path in OperationPaths(op) && Address(path).Some?
    ensures Address(path).value != [key]
  {
    if Address(path).value == [key] {
      ArrayParentMeaning(path, [key]);
      FootprintMembers(op);
      var f := ArrayParent(path).value;
      RootTextIsEmptyMember();
      assert f in ConflictFootprints(op) && "/" in UNDO_PATHS;
      OverlapIsPrefix(f, "/");
    }
  }

  lemma SelfMove(doc: Json, d: Operation, key: string)
    requires doc.Obj? && Addressable(d) && OntoItself(d) && Address(d.path) == Some([key])
    ensures Apply(doc, d) == if key in doc.members then Some(doc) else None
  {
    var p := Address(d.path).value;
    TopUpdate(doc, p, Delete);
    if key in doc.members {
      var v := doc.members[key];
      TopUpdate(doc, p, Insert(v));
      assert doc.members[key := v] == doc.members;
      if d.Move? {
        TopUpdate(Obj(doc.members - {key}), p, Insert(v));
        assert (doc.members - {key})[key := v] == doc.members;
      }
    }
  }

  lemma SelfMoveCommutes(op: Operation, d: Operation, key: string)
    requires PolicyApproved(op) && Addressable(op) && Unreported(op)
    requires Addressable(d) && OntoItself(d) && Address(d.path) == Some([key]) && IsArrayIndex(key)
    ensures Commutes(op, d)
  {
    forall doc | Stamped(doc) && Apply(doc, d).Some? ensures Exchange(doc, op, d) {
      SelfMove(doc, d, key);
      if Apply(doc, op).Some? {
        IndexMemberStays(doc, op, key);
        SelfMove(Apply(doc, op).value, d, key);
      }
    }
  }

  lemma NeverApplies(doc: Json, d: Operation)
    requires Stamped(doc) && PolicyApproved(d) && Addressable(d) && !Applicable(d)
    ensures Apply(doc, d).None?
  {
    if Apply(doc, d).Some? {
      ApplicableWhenApplied(doc, d);
    }
  }

  lemma UnexposedCommutes(op: Operation, d: Operation)
    requires PolicyApproved(op) && PolicyApproved(d) && Addressable(op) && Addressable(d) && !d.Test? && Unreported(op) && !Exposed(d)
    ensures Commutes(op, d)
  {
    if !Applicable(d) {
      forall doc | Stamped(doc) ensures Apply(doc, d).None? {
        NeverApplies(doc, d);
      }
    } else if r :| r in Places(d) && r[0] != "" {
      assert r == [r[0]];
      SelfMoveCommutes(op, d, r[0]);
    } else {
      HiddenCommutes(op, d);
    }
  }

  lemma UnexposedRebases(ops: seq<Operation>, d: Operation)
    requires AllApproved(ops) && PolicyApproved(d) && Addressable(d) && AllUnreported(ops) && !Exposed(d)
    ensures AlwaysRebasesOverUndo(ops, d)
  {
    if !d.Test? {
      forall op | op in ops ensures Commutes(op, d) {
        ApprovedMember(ops, op);
        ApprovedIsAddressable(op);
        UnexposedCommutes(op, d);
      }
    }
    forall doc, undone, name | Stamped(doc) && Commit(doc, Change([d], undone)).Some?
      ensures RebasesOverUndo(doc, Change([d], undone), ops, name) {
      CommutingRebasesOverUndo(doc, Change([d], undone), ops, name);
    }
  }

  // ---------------------------------------------------------------------------------------------
  // Exposed operations are not.

  /** On this document the proposal and the operation give different documents, or one of them nothing. */
  ghost predicate Differ(doc: Json, op: Operation, d: Operation) {
    && Stamped(doc) && Apply(doc, d).Some?
    && var base := Apply(doc, d).value;
       || (Apply(doc, op).Some? != Apply(base, op).Some?)
       || (&& Apply(doc, op).Some? && Apply(base, op).Some?
           && (Apply(Apply(doc, op).value, d).None?
               || exists q :: q != [] && q[0] != "revision"
                              && Lookup(Apply(Apply(doc, op).value, d).value, q) != Lookup(Apply(base, op).value, q)))
  }

  lemma DifferenceShows(doc: Json, op: Operation, d: Operation)
    requires PolicyApproved(op) && PolicyApproved(d) && Addressable(op) && Addressable(d) && !d.Test? && Differ(doc, op, d)
    ensures !AlwaysRebasesOverUndo([op], d)
  {
    var change := Change([d], "r2");
    SingleOperation(doc, d);
    SingleOperation(doc, op);
    var base := Apply(doc, d).value;
    StampStays(doc, d);
    StampPastPatch(doc, "r3", [op]);
    StampPastPatch(base, "r2", [op]);
    SingleOperation(base, op);
    assert Changes([d]) == [d] && change.(ops := Changes(change.ops)) == change;
    if Apply(doc, op).Some? && Apply(base, op).Some? {
      StampStays(doc, op);
      SingleOperation(Apply(doc, op).value, d);
      if Apply(Apply(doc, op).value, d).Some? {
        var q :| q != [] && q[0] != "revision" && Lookup(Apply(Apply(doc, op).value, d).value, q) != Lookup(Apply(base, op).value, q);
        RootStaysObject(Apply(doc, op).value, d);
        StampElsewhere(Apply(Apply(doc, op).value, d).value, "r2", q);
        StampElsewhere(Apply(base, op).value, "r2", q);
      }
    }
    assert !RebasesOverUndo(doc, change, [op], "r3");
  }

  /** An object that holds a null at a path. */
  function Holder(path: Tokens): Json
    requires path != []
  {
    NestHolds(path, Null);
    Stamp(Nest(path, Null), "r1")
  }

  lemma HolderHolds(path: Tokens)
    requires Outside(path)
    ensures Stamped(Holder(path)) && Lookup(Holder(path), path) == Some(Null) && ObjectAt(Holder(path), Front(path))
  {
    NestHolds(path, Null);
    StampElsewhere(Nest(path, Null), "r1", path);
    FrontOfOne(path);
    StampElsewhere(Nest(path, Null), "r1", Front(path));
  }

  /** A replacement at a place of the operation is approved and, outside the empty member, not reported. */
  lemma ReplaceIsUnreported(d: Operation, r: Tokens, v: Json) returns (op: Operation)
    requires PolicyApproved(d) && Addressable(d) && r in Places(d) && r[0] != ""
    ensures op.Replace? && op.value == v && Address(op.path) == Some(r) && PolicyApproved(op) && Unreported(op)
  {
    var p := PlacesHaveText(d, r);
    op := Replace(p, v);
    assert OperationPaths(op) == [p] && ConflictFootprints(op) == [p];
    RootTextIsEmptyMember();
    OverlapIsPrefix(p, "/");
    StartsEmpty(r);
  }

  lemma RemoveIsUnreported(d: Operation, r: Tokens) returns (op: Operation)
    requires PolicyApproved(d) && Addressable(d) && r in Places(d) && r[0] != "" && (|r| >= 2 || !IsArrayIndex(r[0]))
    ensures op.Remove? && Address(op.path) == Some(r) && PolicyApproved(op) && Unreported(op)
  {
    var p := PlacesHaveText(d, r);
    op := Remove(p);
    assert OperationPaths(op) == [p];
    RootTextIsEmptyMember();
    FootprintMembers(op);
    ArrayParentMeaning(p, r);
    forall f | f in ConflictFootprints(op) ensures !PointersOverlap(f, "/") {
      OverlapIsPrefix(f, "/");
      var t := DecodePointer(f).value;
      assert f == p || t == Front(r);
      StartsEmpty(t);
    }
  }

  /** Where the operation leaves a null, a proposal that puts something else there is lost, or applied twice. */
  lemma EditDiffers(d: Operation) returns (op: Operation, doc: Json)
    requires PolicyApproved(d) && Addressable(d) && Applicable(d) && (d.Add? || d.Remove? || d.Replace?)
    requires Address(d.path).value[0] != ""
    ensures PolicyApproved(op) && Unreported(op) && Differ(doc, op, d)
  {
    var p := Address(d.path).value;
    assert p in Places(d);
    PlaceIsOutside(d, p);
    doc := Holder(p);
    HolderHolds(p);
    if d.Remove? {
      op := ReplaceIsUnreported(d, p, Null);
      MemberThere(doc, p);
      EditDirectly(doc, p, Delete);
      AssignLooksUp(doc, p, Null);
      var base := Apply(doc, d).value;
      RemovedIsGone(base, p, Lookup(doc, Front(p)).value, Last(p));
      AssignLooksUp(base, p, Null);
    } else {
      op := ReplaceIsUnreported(d, p, if d.value == Null then Bool(true) else Null);
      WrittenIsThere(doc, p, d);
      AssignLooksUp(doc, p, op.value);
      var base, patched := Apply(doc, d).value, Apply(doc, op).value;
      AssignLooksUp(base, p, op.value);
      AssignDirectly(doc, p, op.value);
      WrittenIsThere(patched, p, d);
    }
  }

  lemma RemovedIsGone(base: Json, p: Tokens, container: Json, key: string)
    requires p != [] && container.Obj? && Lookup(base, Front(p)) == Some(Obj(container.members - {key})) && Last(p) == key
    ensures Lookup(base, p).None?
  {
    LookupThrough(base, Front(p), p);
    assert p[|Front(p)|..] == [key];
  }

  /** Writing a member of an object. */
  lemma WrittenIsThere(doc: Json, p: Tokens, d: Operation)
    requires Addressable(d) && (d.Add? || d.Replace?) && Address(d.path) == Some(p)
    requires ObjectAt(doc, Front(p)) && Lookup(doc, p).Some?
    ensures Apply(doc, d).Some? && Lookup(Apply(doc, d).value, p) == Some(d.value)
  {
    if d.Replace? {
      AssignLooksUp(doc, p, d.value);
    } else {
      InsertedIsThere(doc, p, d.value);
    }
  }

  lemma InsertedIsThere(doc: Json, p: Tokens, v: Json)
    requires p != [] && ObjectAt(doc, Front(p))
    ensures Update(doc, p, Insert(v)).Some? && Lookup(Update(doc, p, Insert(v)).value, p) == Some(v)
  {
    EditDirectly(doc, p, Insert(v));
    var after := Update(doc, p, Insert(v)).value;
    LookupThrough(after, Front(p), p);
    assert p[|Front(p)|..] == [Last(p)] && [Last(p)][1..] == [];
  }

  lemma AssignDirectly(doc: Json, p: Tokens, v: Json)
    requires p != [] && ObjectAt(doc, Front(p)) && Lookup(doc, p).Some?
    ensures Update(doc, p, Assign(v)).Some? && ObjectAt(Update(doc, p, Assign(v)).value, Front(p))
    ensures Lookup(Update(doc, p, Assign(v)).value, p) == Some(v)
  {
    EditDirectly(doc, p, Assign(v));
    AssignLooksUp(doc, p, v);
  }

  // Copies and moves.

  /** An object with a null at the source and something at the target, when neither lies inside the other's way. */
  function Both(from: Tokens, p: Tokens): Json
    requires from != [] && p != []
  {
    ForkHolds(from, Null, p);
    Stamp(Fork(from, Null, p), "r1")
  }

  lemma BothHold(from: Tokens, p: Tokens)
    requires Outside(from) && Outside(p) && !Overlap(from, p)
    ensures Stamped(Both(from, p)) && Lookup(Both(from, p), from) == Some(Null) && Lookup(Both(from, p), p) == Some(Null)
    ensures ObjectAt(Both(from, p), Front(from)) && ObjectAt(Both(from, p), Front(p))
  {
    ForkHolds(from, Null, p);
    ForkHasBothParents(from, p);
    StampElsewhere(Fork(from, Null, p), "r1", from);
    StampElsewhere(Fork(from, Null, p), "r1", p);
    FrontOfOne(from);
    FrontOfOne(p);
    StampElsewhere(Fork(from, Null, p), "r1", Front(from));
    StampElsewhere(Fork(from, Null, p), "r1", Front(p));
  }

  lemma {:induction false} ForkHasBothParents(place: Tokens, other: Tokens)
    requires place != [] && other != [] && !Overlap(place, other)
    ensures ObjectAt(Fork(place, Null, other), Front(place))
  {
    if place[0] == other[0] {
      SameHead(place, other);
      OverlapTail(place, other);
      TailParts(place);
      ForkHasBothParents(place[1..], other[1..]);
    } else {
      NestHolds(place[1..], Null);
      if |place| >= 2 {
        TailParts(place);
      } else {
        assert Front(place) == [];
      }
    }
  }

  /** A value fetched from elsewhere covers what a proposal puts at the target. */
  lemma FetchCovers(d: Operation) returns (op: Operation, doc: Json)
    requires PolicyApproved(d) && Addressable(d) && Applicable(d) && (d.Copy? || d.Move?)
    requires !Overlap(Address(d.from).value, Address(d.path).value) && Address(d.path).value[0] != ""
    ensures PolicyApproved(op) && Unreported(op) && Differ(doc, op, d)
  {
    var p, from := Address(d.path).value, Address(d.from).value;
    assert p in Places(d) && from in Places(d);
    PlaceIsOutside(d, p);
    PlaceIsOutside(d, from);
    doc := Both(from, p);
    BothHold(from, p);
    op := ReplaceIsUnreported(d, p, Bool(true));
    FetchLands(doc, d);
    AssignLooksUp(doc, p, Bool(true));
    var base, patched := Apply(doc, d).value, Apply(doc, op).value;
    AssignLooksUp(base, p, Bool(true));
    AssignDirectly(doc, p, Bool(true));
    BesideObject(doc, p, Assign(Bool(true)), from);
    NotAboveFront(p, from);
    ObjectBeside(doc, p, Assign(Bool(true)), from);
    FetchLands(patched, d);
  }

  /** The object around one path stays an object when the member of another object is edited. */
  lemma ObjectBeside(doc: Json, r: Tokens, e: Edit, p: Tokens)
    requires p != [] && r != [] && ObjectAt(doc, Front(p)) && ObjectAt(doc, Front(r)) && !(r <= Front(p))
    requires Update(doc, r, e).Some?
    ensures ObjectAt(Update(doc, r, e).value, Front(p))
  {
    if Below(Front(r), Front(p)) {
      LookupPastUpdate(doc, r, e, Front(p));
    } else {
      ObjectStays(doc, r, e, Front(p));
    }
  }

  lemma NotAboveFront(r: Tokens, p: Tokens)
    requires p != []
    ensures r <= Front(p) ==> r <= p
  {
  }

  /** Copying or moving between two members of objects. */
  lemma FetchLands(doc: Json, d: Operation)
    requires Addressable(d) && (d.Copy? || d.Move?) && !Overlap(Address(d.from).value, Address(d.path).value)
    requires ObjectAt(doc, Front(Address(d.path).value)) && ObjectAt(doc, Front(Address(d.from).value))
    requires Lookup(doc, Address(d.from).value).Some? && Lookup(doc, Address(d.path).value).Some?
    ensures Apply(doc, d).Some? && Lookup(Apply(doc, d).value, Address(d.path).value) == Lookup(doc, Address(d.from).value)
    ensures d.Move? ==> Lookup(Apply(doc, d).value, Address(d.from).value).None?
  {
    var p, from := Address(d.path).value, Address(d.from).value;
    var v := Lookup(doc, from).value;
    if d.Copy? {
      InsertedIsThere(doc, p, v);
    } else {
      MemberThere(doc, from);
      EditDirectly(doc, from, Delete);
      var without := Update(doc, from, Delete).value;
      RemovedIsGone(without, from, Lookup(doc, Front(from)).value, Last(from));
      NotAboveFront(from, p);
      ObjectBeside(doc, from, Delete, p);
      InsertedIsThere(without, p, v);
      BesideObject(without, p, Insert(v), from);
    }
  }

  /** What a proposal puts at the source of a copy outside the empty member is copied only when it comes first. */
  lemma CopySourceDiffers(doc: Json, d: Operation, op: Operation)
    requires Addressable(d) && d.Copy? && !Overlap(Address(d.from).value, Address(d.path).value) && Outside(Address(d.path).value)
    requires op.Replace? && op.value == Bool(true) && Address(op.path) == Address(d.from)
    requires Stamped(doc) && Lookup(doc, Address(d.from).value) == Some(Null) && Lookup(doc, Address(d.path).value).Some?
    requires ObjectAt(doc, Front(Address(d.path).value)) && ObjectAt(doc, Front(Address(d.from).value))
    ensures Differ(doc, op, d)
  {
    var p, from := Address(d.path).value, Address(d.from).value;
    FetchLands(doc, d);
    AssignDirectly(doc, from, Bool(true));
    var base, patched := Apply(doc, d).value, Apply(doc, op).value;
    NotAboveFront(p, from);
    ObjectBeside(doc, p, Insert(Null), from);
    BesideObject(doc, p, Insert(Null), from);
    AssignDirectly(base, from, Bool(true));
    BesideObject(base, from, Assign(Bool(true)), p);
    NotAboveFront(from, p);
    ObjectBeside(doc, from, Assign(Bool(true)), p);
    InsertedIsThere(patched, p, Bool(true));
  }

  /** After a move the source is gone. */
  lemma MoveSourceDiffers(doc: Json, d: Operation, op: Operation)
    requires Addressable(d) && d.Move? && !Overlap(Address(d.from).value, Address(d.path).value)
    requires op.Replace? && Address(op.path) == Address(d.from)
    requires Stamped(doc) && Lookup(doc, Address(d.from).value).Some? && Lookup(doc, Address(d.path).value).Some?
    requires ObjectAt(doc, Front(Address(d.path).value)) && ObjectAt(doc, Front(Address(d.from).value))
    ensures Differ(doc, op, d)
  {
    FetchLands(doc, d);
    AssignLooksUp(doc, Address(d.from).value, op.value);
    AssignLooksUp(Apply(doc, d).value, Address(d.from).value, op.value);
  }

  lemma SourceDiffers(d: Operation) returns (op: Operation, doc: Json)
    requires PolicyApproved(d) && Addressable(d) && Applicable(d) && (d.Copy? || d.Move?)
    requires !Overlap(Address(d.from).value, Address(d.path).value) && Address(d.from).value[0] != ""
    ensures PolicyApproved(op) && Unreported(op) && Differ(doc, op, d)
  {
    var p, from := Address(d.path).value, Address(d.from).value;
    assert p in Places(d) && from in Places(d);
    PlaceIsOutside(d, p);
    PlaceIsOutside(d, from);
    doc := Both(from, p);
    BothHold(from, p);
    op := ReplaceIsUnreported(d, from, Bool(true));
    if d.Copy? {
      CopySourceDiffers(doc, d, op);
    } else {
      MoveSourceDiffers(doc, d, op);
    }
  }

  lemma {:induction false} NestContainers(path: Tokens, place: Tokens)
    requires Below(place, path)
    ensures ObjectAt(Nest(path, Null), place)
  {
    if place != [] {
      assert path[0] == path[..|place|][0] && path[1..][..|place| - 1] == place[1..];
      NestContainers(path[1..], place[1..]);
    }
  }

  lemma HolderContainers(path: Tokens, place: Tokens)
    requires Outside(path) && Below(place, path)
    ensures ObjectAt(Holder(path), place)
  {
    NestHolds(path, Null);
    NestContainers(path, place);
    SharesHead(if place == [] then path else place, path);
    StampElsewhere(Nest(path, Null), "r1", place);
  }

  lemma NoneBelowBool(doc: Json, place: Tokens, q: Tokens)
    requires Below(place, q) && Lookup(doc, place) == Some(Bool(true))
    ensures Lookup(doc, q).None?
  {
    LookupThrough(doc, place, q);
  }

  lemma ContainerThere(doc: Json, place: Tokens, q: Tokens)
    requires Below(place, q) && Lookup(doc, q).Some?
    ensures Lookup(doc, place).Some? && Lookup(doc, place) != Some(Bool(true))
  {
    LookupThrough(doc, place, q);
    if Lookup(doc, place) == Some(Bool(true)) {
      NoneBelowBool(doc, place, q);
    }
  }

  lemma PrefixIsBelow(a: Tokens, b: Tokens)
    requires a < b
    ensures Below(a, b) && (a != [] ==> Front(a) <= b && |Front(a)| < |b| && Below(Front(a), b))
  {
    assert a == b[..|a|];
    if a != [] {
      assert Front(a) == b[..|a|][..|a| - 1] == b[..|a| - 1];
    }
  }

  lemma OverlapCases(a: Tokens, b: Tokens)
    requires Overlap(a, b)
    ensures a == b || a < b || b < a
  {
    if |a| == |b| {
      assert a == b;
    }
  }

  /** Copying a container into itself, or a member over what holds it. */
  lemma NestedDiffers(d: Operation) returns (op: Operation, doc: Json)
    requires PolicyApproved(d) && Addressable(d) && Applicable(d) && (d.Copy? || d.Move?)
    requires Address(d.from) != Address(d.path) && Overlap(Address(d.from).value, Address(d.path).value)
    requires Address(d.path).value[0] != ""
    ensures PolicyApproved(op) && Unreported(op) && Differ(doc, op, d)
  {
    var p, from := Address(d.path).value, Address(d.from).value;
    assert p in Places(d) && from in Places(d);
    PlaceIsOutside(d, p);
    PlaceIsOutside(d, from);
    op := ReplaceIsUnreported(d, p, Bool(true));
    OverlapCases(from, p);
    if from < p {
      doc := Holder(p);
      HolderHolds(p);
      PrefixIsBelow(from, p);
      ContainerThere(doc, from, p);
      IntoItself(doc, d, op);
    } else {
      doc := Holder(from);
      HolderHolds(from);
      PrefixIsBelow(p, from);
      HolderContainers(from, Front(p));
      ContainerThere(doc, p, from);
      OverItsHolder(doc, d, op);
    }
  }

  lemma IntoItself(doc: Json, d: Operation, op: Operation)
    requires Addressable(d) && d.Copy? && Address(d.from).value < Address(d.path).value && Address(d.path).value[0] != "revision"
    requires op.Replace? && op.value == Bool(true) && Address(op.path) == Address(d.path)
    requires Stamped(doc) && Lookup(doc, Address(d.path).value).Some? && Lookup(doc, Address(d.from).value).Some?
    requires ObjectAt(doc, Front(Address(d.path).value))
    ensures Differ(doc, op, d)
  {
    var p, from := Address(d.path).value, Address(d.from).value;
    InsertedIsThere(doc, p, Lookup(doc, from).value);
    AssignDirectly(doc, p, Bool(true));
    var base, patched := Apply(doc, d).value, Apply(doc, op).value;
    AssignLooksUp(base, p, Bool(true));
    PrefixIsBelow(from, p);
    ContainerThere(patched, from, p);
    InsertedIsThere(patched, p, Lookup(patched, from).value);
  }

  lemma OverItsHolder(doc: Json, d: Operation, op: Operation)
    requires Addressable(d) && (d.Copy? || d.Move?) && Address(d.path).value < Address(d.from).value
    requires op.Replace? && op.value == Bool(true) && Address(op.path) == Address(d.path)
    requires Stamped(doc) && Lookup(doc, Address(d.path).value).Some? && Lookup(doc, Address(d.from).value).Some?
    requires ObjectAt(doc, Front(Address(d.path).value)) && ObjectAt(doc, Front(Address(d.from).value))
    ensures Differ(doc, op, d)
  {
    var p, from := Address(d.path).value, Address(d.from).value;
    var v := Lookup(doc, from).value;
    PrefixIsBelow(p, from);
    if d.Copy? {
      InsertedIsThere(doc, p, v);
    } else {
      MemberThere(doc, from);
      EditDirectly(doc, from, Delete);
      ObjectBeside(doc, from, Delete, p);
      InsertedIsThere(Update(doc, from, Delete).value, p, v);
    }
    AssignLooksUp(doc, p, Bool(true));
    AssignLooksUp(Apply(doc, d).value, p, Bool(true));
    NoneBelowBool(Apply(doc, op).value, p, from);
  }

  /** Removing what is copied or moved onto itself. */
  lemma SelfDiffers(d: Operation) returns (op: Operation, doc: Json)
    requires PolicyApproved(d) && Addressable(d) && Applicable(d) && OntoItself(d)
    requires var p := Address(d.path).value; p[0] != "" && (|p| >= 2 || !IsArrayIndex(p[0]))
    ensures PolicyApproved(op) && Unreported(op) && Differ(doc, op, d)
  {
    var p := Address(d.path).value;
    assert p in Places(d);
    PlaceIsOutside(d, p);
    op := RemoveIsUnreported(d, p);
    doc := Holder(p);
    HolderHolds(p);
    MemberThere(doc, p);
    EditDirectly(doc, p, Delete);
    var removed := Apply(doc, op).value;
    RemovedIsGone(removed, p, Lookup(doc, Front(p)).value, Last(p));
    InsertedIsThere(doc, p, Null);
    InsertedIsThere(removed, p, Null);
    var base := Apply(doc, d).value;
    var again := if d.Copy? then doc else removed;
    EditDirectly(again, p, Insert(Null));
    MemberThere(base, p);
    EditDirectly(base, p, Delete);
  }

  lemma ExposedEdit(d: Operation)
    requires Addressable(d) && Exposed(d) && !d.Copy? && !d.Move?
    ensures !d.Test? && Address(d.path).value[0] != ""
  {
  }

  lemma OverlapSharesHead(a: Tokens, b: Tokens)
    requires a != [] && b != [] && Overlap(a, b)
    ensures a[0] == b[0]
  {
  }

  lemma ExposedFetch(d: Operation)
    requires Addressable(d) && Exposed(d) && (d.Copy? || d.Move?)
    ensures Address(d.path).value[0] != "" || Address(d.from).value[0] != ""
    ensures OntoItself(d) ==> Address(d.path).value[0] != "" && (|Address(d.path).value| >= 2 || !IsArrayIndex(Address(d.path).value[0]))
  {
    var p, from := Address(d.path).value, Address(d.from).value;
    var r :| r in Places(d) && r[0] != "" && !(OntoItself(d) && |r| == 1 && IsArrayIndex(r[0]));
    assert r == p || r == from;
  }

  lemma FetchDiffers(d: Operation) returns (op: Operation, doc: Json)
    requires PolicyApproved(d) && Addressable(d) && Exposed(d) && (d.Copy? || d.Move?)
    ensures PolicyApproved(op) && Unreported(op) && Differ(doc, op, d)
  {
    ExposedFetch(d);
    if OntoItself(d) {
      op, doc := SelfDiffers(d);
    } else if Overlap(Address(d.from).value, Address(d.path).value) {
      OverlapSharesHead(Address(d.from).value, Address(d.path).value);
      op, doc := NestedDiffers(d);
    } else if Address(d.path).value[0] != "" {
      op, doc := FetchCovers(d);
    } else {
      op, doc := SourceDiffers(d);
    }
  }

  lemma ExposedDiffers(d: Operation) returns (op: Operation, doc: Json)
    requires PolicyApproved(d) && Addressable(d) && Exposed(d)
    ensures PolicyApproved(op) && Unreported(op) && Differ(doc, op, d)
  {
    if d.Copy? || d.Move? {
      op, doc := FetchDiffers(d);
    } else {
      ExposedEdit(d);
      op, doc := EditDiffers(d);
    }
  }

  /** Undoing an operation leaves every patch that is not reported sound, on every document, exactly when the operation is
      not exposed. */
  lemma UndoDetectionIsExactly(d: Operation)
    requires PolicyApproved(d) && Addressable(d)
    ensures (forall ops :: AllApproved(ops) && AllUnreported(ops) ==> AlwaysRebasesOverUndo(ops, d)) <==> !Exposed(d)
  {
    if Exposed(d) {
      var op, doc := ExposedDiffers(d);
      ApprovedIsAddressable(op);
      DifferenceShows(doc, op, d);
      assert AllApproved([op]) && AllUnreported([op]);
    } else {
      forall ops | AllApproved(ops) && AllUnreported(ops) ensures AlwaysRebasesOverUndo(ops, d) {
        UnexposedRebases(ops, d);
      }
    }
  }
}
