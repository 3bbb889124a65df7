/** Conflict detection compares a proposal with the bare paths of committed operations: what it lets pass commutes with a
    committed operation unless it leads through an array element that the operation shifts. */
module ArrayShifts {
  import opened Wrappers
  import opened Pointer
  import opened JsonPatch
  import opened OperationMeaning
  import opened CollaborationPatch
  import opened Conflict
  import opened Rebase

  // ---------------------------------------------------------------------------------------------
  // What an operation shifts.

  /** The index under which a path goes on from an array at this place. */
  function IndexBelow(place: Tokens, q: Tokens): Option<nat> {
    if Below(place, q) then ParseIndex(q[|place|]) else None
  }

  /** The path can be followed when an array stands at the place. */
  predicate AllowsArray(place: Tokens, q: Tokens) {
    Below(place, q) ==> IndexBelow(place, q).Some?
  }

  /** Inserting at `p` shifts the element that `q` leads through; something appended stands behind what was there. */
  predicate InsertShifts(p: Tokens, q: Tokens)
    requires p != []
  {
    && |p| >= 2 && IndexBelow(Front(p), q).Some?
    && (Last(p) == "-" || (ParseIndex(Last(p)).Some? && IndexBelow(Front(p), q).value >= ParseIndex(Last(p)).value))
  }

  predicate DeleteShifts(p: Tokens, q: Tokens)
    requires p != []
  {
    && |p| >= 2 && IndexBelow(Front(p), q).Some?
    && ParseIndex(Last(p)).Some? && IndexBelow(Front(p), q).value >= ParseIndex(Last(p)).value
  }

  /** The same for a value that is read at `from` beforehand. */
  predicate FetchShifts(from: Tokens, p: Tokens, q: Tokens)
    requires p != []
  {
    && InsertShifts(p, q) && AllowsArray(Front(p), from)
    && (Last(p) == "-" && IndexBelow(Front(p), from).Some? ==> IndexBelow(Front(p), q).value > IndexBelow(Front(p), from).value)
  }

  /** Moving inside one array shifts what lies between. */
  predicate ReorderShifts(from: Tokens, p: Tokens, q: Tokens)
    requires from != [] && p != []
  {
    && |p| >= 2 && IndexBelow(Front(p), q).Some? && ParseIndex(Last(from)).Some?
    && var x, i := IndexBelow(Front(p), q).value, ParseIndex(Last(from)).value;
       if Last(p) == "-" then x >= i else ParseIndex(Last(p)).Some? && Between(x, i, ParseIndex(Last(p)).value)
  }

  /** The operation applies to some document: it stays off the members of the revision stamp, and moves nothing into
      itself. */
  predicate Applicable(d: Operation)
    requires Addressable(d)
  {
    && (forall r :: r in Places(d) ==> !BelowRevision(r))
    && (d.Move? ==> !(Address(d.from).value < Address(d.path).value))
  }

  /** On some document the operation shifts the array element that `q` leads through. */
  predicate Shifts(d: Operation, q: Tokens)
    requires Addressable(d)
  {
    Applicable(d)
    && var p := Address(d.path).value;
       match d
       case Add(_, _) => InsertShifts(p, q)
       case Remove(_) => DeleteShifts(p, q)
       case Replace(_, _) => false
       case Test(_, _) => false
       case Copy(source, _) => FetchShifts(Address(source).value, p, q)
       case Move(source, _) =>
         var from := Address(source).value;
         if Front(from) == Front(p) then ReorderShifts(from, p, q)
         else FetchShifts(from, p, q) || (DeleteShifts(from, q) && AllowsArray(Front(from), p))
  }

  /** Detection compares the pointer with the paths the operation names, and lets it pass. */
  predicate LetsPass(d: Operation, pointer: string) {
    DecodePointer(pointer).Some? && forall p :: p in OperationPaths(d) ==> !PointersOverlap(pointer, p)
  }

  /** Some pointer that detection lets pass beside the operation leads through an element the operation shifts. */
  ghost predicate Misses(d: Operation)
    requires Addressable(d)
  {
    exists pointer :: LetsPass(d, pointer) && Shifts(d, DecodePointer(pointer).value)
  }

  predicate Passes(pointer: string, changed: seq<string>) {
    DecodePointer(pointer).Some? && forall p :: p in changed ==> !PointersOverlap(pointer, p)
  }

  /** The same beside all paths that the operation's patch changes. */
  ghost predicate MissesBeside(d: Operation, changed: seq<string>)
    requires Addressable(d)
  {
    exists pointer :: Passes(pointer, changed) && Shifts(d, DecodePointer(pointer).value)
  }

  /** Whatever passes beside the whole patch is shifted by none of its operations. */
  ghost predicate NothingMissed(done: seq<Operation>) {
    forall k :: 0 <= k < |done| && Addressable(done[k]) ==> !MissesBeside(done[k], ChangedPaths(done))
  }

  /** Operations that miss nothing on their own miss nothing together; but a patch that also names the array, or anything
      above it, makes up for operations that would miss something. */
  lemma NothingMissedTogether(done: seq<Operation>)
    requires forall k :: 0 <= k < |done| && Addressable(done[k]) && !done[k].Test? ==> !Misses(done[k])
    ensures NothingMissed(done)
  {
    ChangedPathsMeaning(done);
    forall k | 0 <= k < |done| && Addressable(done[k]) ensures !MissesBeside(done[k], ChangedPaths(done)) {
      if pointer :| Passes(pointer, ChangedPaths(done)) && Shifts(done[k], DecodePointer(pointer).value) {
        assert done[k] in done && LetsPass(done[k], pointer);
      }
    }
  }

  /** Operations that only write and remove object members miss nothing, wherever they copy from. */
  lemma ObjectEditsMissNothing(d: Operation)
    requires Addressable(d) && (|Address(d.path).value| == 1 || !IsArrayIndex(Last(Address(d.path).value)))
    requires d.Move? ==> |Address(d.from).value| == 1 || !IsArrayIndex(Last(Address(d.from).value))
    ensures !Misses(d)
  {
    if ParseIndex(Last(Address(d.path).value)).Some? {
      ParsedIsArrayIndex(Last(Address(d.path).value));
    }
    if d.Move? && ParseIndex(Last(Address(d.from).value)).Some? {
      ParsedIsArrayIndex(Last(Address(d.from).value));
    }
  }

  // ---------------------------------------------------------------------------------------------
  // Arrays along a path.

  lemma {:induction false} LookupThrough(doc: Json, place: Tokens, q: Tokens)
    requires Below(place, q)
    ensures Lookup(doc, q) == if Lookup(doc, place).None? then None else Lookup(Lookup(doc, place).value, q[|place|..])
    decreases |place|
  {
    if place != [] {
      assert q[0] == q[..|place|][0] == place[0];
      if Child(doc, q[0]).Some? {
        assert q[1..][..|place| - 1] == place[1..] && q[1..][|place| - 1..] == q[|place|..];
        LookupThrough(Child(doc, q[0]).value, place[1..], q[1..]);
      }
    } else {
      assert q[0..] == q;
    }
  }

  lemma ThroughArray(doc: Json, place: Tokens, q: Tokens)
    requires Below(place, q) && Lookup(doc, q).Some? && Lookup(doc, place).Some? && Lookup(doc, place).value.Arr?
    ensures IndexBelow(place, q).Some? && IndexBelow(place, q).value < |Lookup(doc, place).value.items|
  {
    LookupThrough(doc, place, q);
    assert q[|place|..][0] == q[|place|];
  }

  lemma FurtherBelow(place: Tokens, p: Tokens)
    requires Below(place, p) && Front(p) != place
    ensures |p| >= |place| + 2
  {
  }

  lemma FrontOfOne(p: Tokens)
    requires p != []
    ensures |p| == 1 <==> Front(p) == []
  {
  }

  lemma UpdateThroughArray(doc: Json, place: Tokens, p: Tokens, e: Edit)
    requires Below(place, p) && Front(p) != place && Update(doc, p, e).Some?
    requires Lookup(doc, place).Some? && Lookup(doc, place).value.Arr?
    ensures IndexBelow(place, p).Some?
  {
    UpdateNeedsContainer(doc, p, e);
    FurtherBelow(place, p);
    assert Front(p)[..|place|] == p[..|place|] && Front(p)[|place|] == p[|place|];
    ThroughArray(doc, place, Front(p));
  }

  /** Editing deep inside a container leaves its shape. */
  lemma {:induction false} DeepEditKeepsShape(doc: Json, place: Tokens, r: Tokens, e: Edit)
    requires Below(place, r) && |r| >= |place| + 2 && Update(doc, r, e).Some?
    ensures Shape(Lookup(Update(doc, r, e).value, place)) == Shape(Lookup(doc, place))
    decreases |place|
  {
    var child := Child(doc, r[0]).value;
    var edited := Update(child, r[1..], e).value;
    AssignedChild(doc, r[0], edited);
    if place != [] {
      assert r[0] == r[..|place|][0] == place[0] && r[1..][..|place| - 1] == place[1..];
      DeepEditKeepsShape(child, place[1..], r[1..], e);
    }
  }

  // ---------------------------------------------------------------------------------------------
  // What is not shifted is left alone.

  lemma ApplicableWhenApplied(doc: Json, d: Operation)
    requires Stamped(doc) && PolicyApproved(d) && Addressable(d) && Apply(doc, d).Some?
    ensures Applicable(d)
  {
    if r :| r in Places(d) && BelowRevision(r) {
      FailsBelowRevision(doc, d);
    }
  }

  lemma InsertLeaves(doc: Json, p: Tokens, v: Json, q: Tokens)
    requires doc.Obj? && p != [] && !Overlap(p, q) && !InsertShifts(p, q)
    ensures Clear(doc, p, Insert(v), q)
  {
    if Below(Front(p), q) && Lookup(doc, Front(p)).Some? && |p| == 1 {
      assert Front(p) == [];
    }
  }

  lemma DeleteLeaves(doc: Json, p: Tokens, q: Tokens)
    requires doc.Obj? && p != [] && !Overlap(p, q) && !DeleteShifts(p, q)
    ensures Clear(doc, p, Delete, q)
  {
    if Below(Front(p), q) && Lookup(doc, Front(p)).Some? && |p| == 1 {
      assert Front(p) == [];
    }
  }

  /** `other` has the shape of the document in which `from` was read. */
  lemma FetchLeaves(doc: Json, other: Json, from: Tokens, p: Tokens, v: Json, q: Tokens)
    requires doc.Obj? && p != [] && !Overlap(p, q) && !FetchShifts(from, p, q) && Lookup(other, from).Some?
    requires Below(Front(p), from) ==> Shape(Lookup(doc, Front(p))) == Shape(Lookup(other, Front(p)))
    ensures Clear(doc, p, Insert(v), q)
  {
    if InsertShifts(p, q) && Lookup(doc, Front(p)).Some? && Lookup(doc, Front(p)).value.Arr? {
      if Below(Front(p), from) {
        ThroughArray(other, Front(p), from);
      }
    } else if !InsertShifts(p, q) {
      InsertLeaves(doc, p, v, q);
    }
  }

  lemma RemovalLeaves(doc: Json, from: Tokens, p: Tokens, q: Tokens)
    requires doc.Obj? && from != [] && p != [] && Front(from) != Front(p) && !Overlap(from, q) && !Overlap(p, q)
    requires MoveMember(doc, from, p).Some?
    requires !(DeleteShifts(from, q) && AllowsArray(Front(from), p))
    ensures Clear(doc, from, Delete, q)
  {
    if DeleteShifts(from, q) && Lookup(doc, Front(from)).Some? && Lookup(doc, Front(from)).value.Arr? {
      DeletedInside(doc, from);
      UpdateThroughArray(Update(doc, from, Delete).value, Front(from), p, Insert(Lookup(doc, from).value));
    } else if !DeleteShifts(from, q) {
      DeleteLeaves(doc, from, q);
    }
  }

  lemma MoveLeaves(doc: Json, from: Tokens, p: Tokens, q: Tokens)
    requires doc.Obj? && from != [] && p != [] && Front(from) != Front(p) && !Overlap(from, q) && !Overlap(p, q)
    requires MoveMember(doc, from, p).Some?
    requires !FetchShifts(from, p, q) && !(DeleteShifts(from, q) && AllowsArray(Front(from), p))
    ensures Clear(doc, from, Delete, q) && Clear(Update(doc, from, Delete).value, p, Insert(Lookup(doc, from).value), q)
  {
    RemovalLeaves(doc, from, p, q);
    var without := Update(doc, from, Delete).value;
    if Below(Front(p), from) {
      FurtherBelow(Front(p), from);
      DeepEditKeepsShape(doc, Front(p), from, Delete);
    }
    FetchLeaves(without, doc, from, p, Lookup(doc, from).value, q);
  }

  lemma ReorderLeaves(doc: Json, from: Tokens, p: Tokens, q: Tokens)
    requires doc.Obj? && from != [] && p != [] && MovesInside(doc, from, p) && !Overlap(from, q)
    requires MoveMember(doc, from, p).Some? && !ReorderShifts(from, p, q)
    ensures Clear(doc, from, Reorder(Target(Last(p))), q)
  {
    MovedIntoArray(doc, from, p);
    FrontOfOne(p);
    assert |from| == |p| && Below(Front(p), from);
    ThroughArray(doc, Front(p), from);
  }

  lemma ObjectLeaves(doc: Json, from: Tokens, p: Tokens, q: Tokens)
    requires from != [] && p != [] && Front(from) == Front(p) && !MovesInside(doc, from, p)
    requires !Overlap(from, q) && !Overlap(p, q) && MoveMember(doc, from, p).Some?
    ensures Clear(doc, from, Delete, q) && Clear(Update(doc, from, Delete).value, p, Insert(Lookup(doc, from).value), q)
  {
    DeletedOutside(doc, from);
  }

  lemma {:induction false} DeletedOutside(doc: Json, from: Tokens)
    requires from != [] && Update(doc, from, Delete).Some? && Shape(Lookup(doc, Front(from))).None?
    ensures Shape(Lookup(Update(doc, from, Delete).value, Front(from))).None?
    decreases |from|
  {
    if |from| >= 2 {
      TailParts(from);
      var child := Child(doc, from[0]).value;
      DeletedOutside(child, from[1..]);
      AssignedChild(doc, from[0], Update(child, from[1..], Delete).value);
    } else {
      assert Front(from) == [];
    }
  }

  /** An operation that shifts nothing on the way of `q` leaves alone what `q` names, on every document. */
  lemma UnshiftedIsLeft(doc: Json, d: Operation, q: Tokens)
    requires Stamped(doc) && PolicyApproved(d) && Addressable(d) && Apply(doc, d).Some?
    requires (forall r :: r in Places(d) ==> !Overlap(r, q)) && !Shifts(d, q)
    ensures Leaves(doc, d, q)
  {
    ApplicableWhenApplied(doc, d);
    var p := Address(d.path).value;
    assert p in Places(d);
    match d
    case Add(_, v) => InsertLeaves(doc, p, v, q);
    case Remove(_) => DeleteLeaves(doc, p, q);
    case Replace(_, _) =>
    case Test(_, _) =>
    case Copy(source, _) =>
      FetchLeaves(doc, doc, Address(source).value, p, Lookup(doc, Address(source).value).value, q);
    case Move(source, _) =>
      var from := Address(source).value;
      assert from in Places(d);
      if Front(from) != Front(p) {
        MoveLeaves(doc, from, p, q);
      } else if MovesInside(doc, from, p) {
        ReorderLeaves(doc, from, p, q);
      } else {
        ObjectLeaves(doc, from, p, q);
      }
  }

  // ---------------------------------------------------------------------------------------------
  // What detection lets pass.

  lemma PlacesHaveText(d: Operation, r: Tokens) returns (p: string)
    requires Addressable(d) && r in Places(d)
    ensures p in OperationPaths(d) && Address(p) == Some(r)
  {
    p := if r == Address(d.path).value then d.path else d.from;
  }

  lemma PassedIsApart(d: Operation, pointer: string, r: Tokens)
    requires Addressable(d) && LetsPass(d, pointer) && r in Places(d)
    ensures !Overlap(r, DecodePointer(pointer).value)
  {
    var p := PlacesHaveText(d, r);
    OverlapIsPrefix(pointer, p);
  }

  /** The proposal's widened footprints avoid the paths of the committed operation. */
  lemma ClearAvoids(op: Operation, d: Operation, changed: seq<string>, r: Tokens)
    requires PolicyApproved(op) && Addressable(op) && Addressable(d) && Names(changed, d) && ClearOf(op, changed) && r in Places(d)
    ensures Avoids(Footprint(op), r)
  {
    var p := PlacesHaveText(d, r);
    assert p in changed;
    forall g | g in Footprint(op) ensures !Overlap(g, r) {
      var f := FootprintHasText(op, g);
      OverlapIsPrefix(f, p);
    }
  }

  /** The changed paths are those the operation names, and perhaps others. */
  predicate Names(changed: seq<string>, d: Operation) {
    forall p :: p in OperationPaths(d) ==> p in changed
  }

  lemma ClearPlacesPass(op: Operation, changed: seq<string>, q: Tokens) returns (pointer: string)
    requires PolicyApproved(op) && Addressable(op) && ClearOf(op, changed) && q in Places(op)
    ensures Passes(pointer, changed) && DecodePointer(pointer) == Some(q)
  {
    pointer := PlacesHaveText(op, q);
    FootprintMembers(op);
    assert pointer in ConflictFootprints(op);
  }

  /** Unless the committed operation shifts something unseen, everything detection lets pass beside the paths of its patch
      commutes with it. */
  lemma PassedCommutes(op: Operation, d: Operation, changed: seq<string>)
    requires PolicyApproved(op) && PolicyApproved(d) && Addressable(op) && Addressable(d) && !d.Test?
    requires Names(changed, d) && ClearOf(op, changed) && !MissesBeside(d, changed)
    ensures Commutes(op, d)
  {
    forall r | r in Places(d) ensures Avoids(Footprint(op), r) {
      ClearAvoids(op, d, changed, r);
    }
    forall doc | Stamped(doc) && Apply(doc, d).Some? ensures Exchange(doc, op, d) {
      forall q | q in Places(op) ensures Leaves(doc, d, q) {
        var pointer := ClearPlacesPass(op, changed, q);
        assert LetsPass(d, pointer);
        forall r | r in Places(d) ensures !Overlap(r, q) {
          PassedIsApart(d, pointer, r);
        }
        UnshiftedIsLeft(doc, d, q);
      }
      OperationsExchange(doc, op, d);
    }
  }

  /** Detection is enough for every patch in which nothing is missed. */
  lemma DetectionImpliesCommuting(ops: seq<Operation>, done: seq<Operation>)
    requires AllApproved(ops) && AllApproved(done) && NothingMissed(done)
    requires forall op :: op in ops ==> ClearOf(op, ChangedPaths(done))
    ensures AllCommute(ops, done)
  {
    forall op, d | op in ops && d in done && !d.Test? ensures Commutes(op, d) {
      ApprovedMember(ops, op);
      ApprovedMember(done, d);
      var k :| 0 <= k < |done| && done[k] == d;
      ChangedPathsMeaning(done);
      PassedCommutes(op, d, ChangedPaths(done));
    }
  }

  /** The service's own check: an empty conflict report makes the rebase sound for every history in which nothing is
      missed. */
  lemma ConflictFreeRebaseIsSound(base: Json, baseName: string, headName: string, ops: seq<Operation>, history: seq<Change>)
    requires Stamped(base) && AllApproved(ops)
    requires forall n :: 0 <= n < |history| ==> AllApproved(history[n].ops)
    requires forall n :: 0 <= n < |history| ==> NothingMissed(history[n].ops)
    requires Replay(base, history).Some?
    requires CollaborationConflicts(baseName, headName, ops, ChangedPathsOf(history)) == []
    ensures var head := Replay(base, history).value;
            && (ApplyAll(head, ops).Some? <==> ApplyAll(base, ops).Some?)
            && (ApplyAll(base, ops).Some? ==>
                  && ApplyAll(base, ops).value.Obj?
                  && Replay(ApplyAll(base, ops).value, WithoutTests(history)) == ApplyAll(head, ops))
  {
    NoConflictsReported(baseName, headName, ops, ChangedPathsOf(history));
    forall n | 0 <= n < |history| ensures AllCommute(ops, history[n].ops) {
      forall op | op in ops ensures ClearOf(op, ChangedPaths(history[n].ops)) {
        var k :| 0 <= k < |ops| && ops[k] == op;
        assert ClearOf(ops[k], ChangedPathsOf(history)[n]);
      }
      DetectionImpliesCommuting(ops, history[n].ops);
    }
    CommutingRebaseIsSound(base, ops, history);
  }
}
