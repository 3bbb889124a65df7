/** Exactly which committed operations conflict detection is enough for: wherever an operation shifts an element on the way
    of a pointer that passes, some document shows a rebase going wrong. */
module DetectionLimits {
  import opened Wrappers
  import opened Decimal
  import opened Pointer
  import opened JsonPatch
  import opened OperationMeaning
  import opened CollaborationPatch
  import opened Conflict
  import opened Rebase
  import opened ArrayShifts
  import opened SiblingPointers

  // ---------------------------------------------------------------------------------------------
  // A document with an array at one place and a value at another.

  function Nest(path: Tokens, leaf: Json): Json {
    if path == [] then leaf else Obj(map[path[0] := Nest(path[1..], leaf)])
  }

  /** Objects all the way to the leaf, and to a null at the other path where that goes elsewhere. */
  function Fork(place: Tokens, leaf: Json, other: Tokens): Json {
    if place == [] || other == [] then Nest(place, leaf)
    else if place[0] == other[0] then Obj(map[place[0] := Fork(place[1..], leaf, other[1..])])
    else Obj(map[place[0] := Nest(place[1..], leaf), other[0] := Nest(other[1..], Null)])
  }

  lemma {:induction false} NestHolds(path: Tokens, leaf: Json)
    ensures Lookup(Nest(path, leaf), path) == Some(leaf)
    ensures path != [] ==> Nest(path, leaf).Obj? && Nest(path, leaf).members.Keys == {path[0]}
    ensures path != [] ==> Lookup(Nest(path, leaf), Front(path)).Some? && Lookup(Nest(path, leaf), Front(path)).value.Obj?
  {
    if path != [] {
      NestHolds(path[1..], leaf);
      if |path| >= 2 {
        TailParts(path);
      } else {
        assert Front(path) == [];
      }
    }
  }

  lemma {:induction false} ForkHolds(place: Tokens, leaf: Json, other: Tokens)
    requires place != [] && other != []
    ensures Fork(place, leaf, other).Obj? && Fork(place, leaf, other).members.Keys <= {place[0], other[0]}
    ensures !(other < place) ==> Lookup(Fork(place, leaf, other), place) == Some(leaf)
    ensures !Overlap(place, other) ==>
              && Lookup(Fork(place, leaf, other), other) == Some(Null)
              && Lookup(Fork(place, leaf, other), Front(other)).Some? && Lookup(Fork(place, leaf, other), Front(other)).value.Obj?
  {
    if place[0] == other[0] {
      OverlapTail(place, other);
      assert other < place <==> other[1..] < place[1..] by {
        assert place == [place[0]] + place[1..] && other == [other[0]] + other[1..];
      }
      if |place| == 1 || |other| == 1 {
        NestHolds(place[1..], leaf);
      } else {
        ForkHolds(place[1..], leaf, other[1..]);
        TailParts(other);
      }
    } else {
      NestHolds(place[1..], leaf);
      NestHolds(other[1..], Null);
      if |other| >= 2 {
        TailParts(other);
      } else {
        assert Front(other) == [];
      }
    }
  }

  lemma StampElsewhere(doc: Json, name: string, q: Tokens)
    requires doc.Obj? && (q == [] || q[0] != "revision")
    ensures q != [] ==> Lookup(Stamp(doc, name), q) == Lookup(doc, q)
    ensures q == [] ==> Lookup(Stamp(doc, name), q) == Some(Stamp(doc, name))
  {
  }

  /** What a path leaves to go below the element of an array. */
  function Rest(place: Tokens, other: Tokens): Tokens {
    if Below(place, other) then other[|place| + 1..] else []
  }

  function Rich(rest: Tokens): Json {
    Nest(rest, Bool(true))
  }

  /** An array of elements that all hold the rest of the path, but for one null. */
  function Elements(length: nat, odd: nat, rest: Tokens): (xs: seq<Json>)
    ensures |xs| == length && forall m :: 0 <= m < length ==> xs[m] == if m == odd then Null else Rich(rest)
  {
    seq(length, m => if m == odd then Null else Rich(rest))
  }

  function Staged(place: Tokens, other: Tokens, length: nat, odd: nat): Json
    requires place != [] && other != []
  {
    ForkHolds(place, Arr(Elements(length, odd, Rest(place, other))), other);
    Stamp(Fork(place, Arr(Elements(length, odd, Rest(place, other))), other), "r1")
  }

  lemma RichIsNotNull(rest: Tokens)
    ensures Rich(rest) != Null && (rest != [] ==> Rich(rest).Obj?)
  {
    NestHolds(rest, Bool(true));
  }

  predicate Outside(q: Tokens) {
    q != [] && q[0] != "revision"
  }

  lemma GoesElsewhere(place: Tokens, other: Tokens)
    requires !(other <= place)
    ensures place <= other ==> Below(place, other)
  {
    if place <= other {
      assert place == other[..|place|];
    }
  }

  /** Where the other path can be found in the staged document. */
  lemma StagedHolds(place: Tokens, other: Tokens, length: nat, odd: nat)
    requires Outside(place) && Outside(other) && !(other <= place)
    ensures var doc, xs := Staged(place, other, length, odd), Elements(length, odd, Rest(place, other));
            && Stamped(doc) && Lookup(doc, place) == Some(Arr(xs))
            && (!Below(place, other) ==> Lookup(doc, other) == Some(Null) && ObjectAt(doc, Front(other)))
            && (IndexBelow(place, other).Some? && IndexBelow(place, other).value < length && IndexBelow(place, other).value != odd ==>
                  Lookup(doc, other) == Some(Bool(true)))
  {
    var xs := Elements(length, odd, Rest(place, other));
    var fork := Fork(place, Arr(xs), other);
    ForkHolds(place, Arr(xs), other);
    StampElsewhere(fork, "r1", place);
    StampElsewhere(fork, "r1", other);
    if !Below(place, other) {
      GoesElsewhere(place, other);
      FrontOfOne(other);
      StampElsewhere(fork, "r1", Front(other));
    } else {
      var doc := Staged(place, other, length, odd);
      LookupThrough(doc, place, other);
      assert other[|place|..][0] == other[|place|] && other[|place|..][1..] == Rest(place, other);
      NestHolds(Rest(place, other), Bool(true));
    }
  }

  predicate ObjectAt(doc: Json, place: Tokens) {
    Lookup(doc, place).Some? && Lookup(doc, place).value.Obj?
  }

  lemma ElementAt(doc: Json, place: Tokens, xs: seq<Json>, x: nat)
    requires Lookup(doc, place) == Some(Arr(xs))
    ensures Lookup(doc, place + [Numeral(x)]) == if x < |xs| then Some(xs[x]) else None
  {
    SiblingBelow(place, x);
    NumeralParses(x);
    LookupThrough(doc, place, place + [Numeral(x)]);
    assert (place + [Numeral(x)])[|place|..] == [Numeral(x)];
    assert [Numeral(x)][1..] == [];
  }

  // ---------------------------------------------------------------------------------------------
  // Edits inside a container.

  /** An edit of an object's member disturbs nothing beside it. */
  lemma BesideObject(doc: Json, r: Tokens, e: Edit, q: Tokens)
    requires r != [] && ObjectAt(doc, Front(r)) && !Overlap(r, q) && Update(doc, r, e).Some?
    ensures Lookup(Update(doc, r, e).value, q) == Lookup(doc, q)
  {
    LookupPastUpdate(doc, r, e, q);
  }

  /** An edit beside or below an object leaves an object there. */
  lemma ObjectStays(doc: Json, r: Tokens, e: Edit, place: Tokens)
    requires r != [] && ObjectAt(doc, place) && !(r <= place) && !Below(Front(r), place) && Update(doc, r, e).Some?
    ensures ObjectAt(Update(doc, r, e).value, place)
  {
    if place <= r {
      EditWithin(doc, place, r, e);
    } else {
      LookupPastUpdate(doc, r, e, place);
    }
  }

  // ---------------------------------------------------------------------------------------------
  // A shifted element spoils a rebase.

  /** Every rebase of the patch past the committed operation succeeds as it should. */
  ghost predicate AlwaysRebases(ops: seq<Operation>, d: Operation) {
    forall doc, name :: Stamped(doc) && Commit(doc, Change([d], name)).Some? ==> Rebases(doc, ops, Change([d], name))
  }

  ghost predicate AllClear(ops: seq<Operation>, changed: seq<string>) {
    forall op :: op in ops ==> ClearOf(op, changed)
  }

  lemma SingleOperation(doc: Json, op: Operation)
    ensures ApplyAll(doc, [op]) == Apply(doc, op)
  {
    assert [op][1..] == [];
  }

  lemma PlainRevision()
    ensures DecodePointer("/revision") == Some(["revision"])
  {
    PlainPointer("revision");
    DecodeEncodePointer(["revision"]);
  }

  /** A pointer to an array element is neither the revision nor the identity of anything. */
  lemma NoIdentity(path: string, place: Tokens, x: nat)
    requires DecodePointer(path) == Some(place + [Numeral(x)]) && place != []
    ensures !TargetsFrameworkOwnedIdentity(path)
  {
    PlainRevision();
    ToNatNumeral(x);
    assert Numeral(x) != "id" by {
      assert !('0' <= "id"[0] <= '9');
    }
    var tokens := place + [Numeral(x)];
    assert tokens[|tokens| - 1] == Numeral(x) && |tokens| >= 2;
  }

  lemma ElementApproved(d: Operation, place: Tokens, x: nat, element: string, v: Json)
    requires Addressable(d) && place != [] && Sibling(d, place, x, element)
    ensures PolicyApproved(Replace(element, v))
    ensures !d.Test? ==> ClearOf(Replace(element, v), ChangedPaths([d]))
  {
    NoIdentity(element, place, x);
    assert OperationPaths(Replace(element, v)) == [element];
    ChangedPathsMeaning([d]);
    assert ConflictFootprints(Replace(element, v)) == [element];
  }

  /** A reading that the committed operation changes makes some replacement come out wrong. */
  lemma ChangedReadingSpoils(doc: Json, d: Operation, place: Tokens, x: nat, element: string) returns (op: Operation)
    requires Stamped(doc) && PolicyApproved(d) && Addressable(d) && !d.Test? && Apply(doc, d).Some?
    requires place != [] && place[0] != "revision" && Sibling(d, place, x, element)
    requires Lookup(Apply(doc, d).value, place + [Numeral(x)]) != Lookup(doc, place + [Numeral(x)])
    ensures PolicyApproved(op) && ClearOf(op, ChangedPaths([d])) && !AlwaysRebases([op], d)
  {
    var q, change := place + [Numeral(x)], Change([d], "r2");
    var v := Lookup(doc, q).GetOr(Null);
    op := Replace(element, v);
    ElementApproved(d, place, x, element, v);
    SingleOperation(doc, d);
    SingleOperation(doc, op);
    PatchKeepsObject(doc, [d]);
    var head := Commit(doc, change).value;
    SingleOperation(head, op);
    StampElsewhere(Apply(doc, d).value, "r2", q);
    AssignLooksUp(doc, q, v);
    AssignLooksUp(head, q, v);
    assert Changes([d]) == [d];
    assert change.(ops := Changes(change.ops)) == change;
    assert !Rebases(doc, [op], change);
  }

  // ---------------------------------------------------------------------------------------------
  // A document for every kind of shift.

  lemma SiblingApart(d: Operation, place: Tokens, x: nat, element: string, r: Tokens)
    requires Addressable(d) && Sibling(d, place, x, element) && r in Places(d)
    ensures !(r <= place) && IndexBelow(place, r) != Some(x)
  {
    var tokens := place + [Numeral(x)];
    PassedIsApart(d, element, r);
    SiblingBelow(place, x);
    ElementOverlaps(place, x, r);
  }

  lemma ElementOverlaps(place: Tokens, x: nat, r: Tokens)
    ensures r <= place || IndexBelow(place, r) == Some(x) ==> Overlap(place + [Numeral(x)], r)
  {
    if r <= place {
      assert r == (place + [Numeral(x)])[..|r|];
    } else if IndexBelow(place, r) == Some(x) {
      ParsedIsNumeral(r[|place|]);
      assert r[..|place| + 1] == place + [Numeral(x)];
    }
  }

  lemma PlaceIsOutside(d: Operation, r: Tokens)
    requires PolicyApproved(d) && Addressable(d) && Applicable(d) && r in Places(d)
    ensures Outside(r)
  {
    ApprovedIsAddressable(d);
    if r[0] == "revision" {
      StampOrBelow(r);
    }
  }

  lemma StampOrBelow(r: Tokens)
    requires r != [] && r[0] == "revision"
    ensures r == REVISION || BelowRevision(r)
  {
    assert r == REVISION + r[1..];
  }

  /** The operation changes what is read at one element of the array at the place. */
  ghost predicate ChangesReading(doc: Json, d: Operation, place: Tokens, x: nat) {
    && Stamped(doc) && Apply(doc, d).Some?
    && Lookup(Apply(doc, d).value, place + [Numeral(x)]) != Lookup(doc, place + [Numeral(x)])
  }

  /** Inserting before an element, or appending where it will be, changes what is read there. */
  lemma InsertedDiffers(start: Json, p: Tokens, v: Json, xs: seq<Json>, x: nat)
    requires p != [] && Lookup(start, Front(p)) == Some(Arr(xs))
    requires if Last(p) == "-" then |xs| == x
             else ParseIndex(Last(p)).Some? && ParseIndex(Last(p)).value < x < |xs| && xs[x - 1] != Null
    ensures Update(start, p, Insert(v)).Some?
    ensures Lookup(Update(start, p, Insert(v)).value, Front(p) + [Numeral(x)]) != if x < |xs| then Some(Null) else None
  {
    EditDirectly(start, p, Insert(v));
    var ys := if Last(p) == "-" then xs + [v]
              else xs[..ParseIndex(Last(p)).value] + [v] + xs[ParseIndex(Last(p)).value..];
    ElementAt(Update(start, p, Insert(v)).value, Front(p), ys, x);
  }

  function IndexOr0(place: Tokens, r: Tokens): nat {
    IndexBelow(place, r).GetOr(0)
  }

  function LengthFor(p: Tokens, x: nat, other: Tokens): nat
    requires p != []
  {
    if Last(p) == "-" then x else x + IndexOr0(Front(p), other) + 1
  }

  lemma AddChanges(d: Operation, x: nat) returns (doc: Json)
    requires d.Add? && Addressable(d) && Outside(Address(d.path).value) && |Address(d.path).value| >= 2
    requires var p := Address(d.path).value;
             Last(p) == "-" || (ParseIndex(Last(p)).Some? && ParseIndex(Last(p)).value < x)
    ensures ChangesReading(doc, d, Front(Address(d.path).value), x)
  {
    var p := Address(d.path).value;
    var place, length := Front(p), LengthFor(p, x, p);
    doc := Staged(place, p, length, x);
    StagedHolds(place, p, length, x);
    var xs := Elements(length, x, Rest(place, p));
    RichIsNotNull(Rest(place, p));
    InsertedDiffers(doc, p, d.value, xs, x);
    ElementAt(doc, place, xs, x);
  }

  lemma CopyChanges(d: Operation, x: nat) returns (doc: Json)
    requires d.Copy? && Addressable(d) && Outside(Address(d.path).value) && Outside(Address(d.from).value)
    requires var p, from := Address(d.path).value, Address(d.from).value;
             && |p| >= 2 && !(from <= Front(p)) && AllowsArray(Front(p), from) && IndexBelow(Front(p), from) != Some(x)
             && (Last(p) == "-" || (ParseIndex(Last(p)).Some? && ParseIndex(Last(p)).value < x))
             && (Last(p) == "-" && IndexBelow(Front(p), from).Some? ==> x > IndexBelow(Front(p), from).value)
    ensures ChangesReading(doc, d, Front(Address(d.path).value), x)
  {
    var p, from := Address(d.path).value, Address(d.from).value;
    var place, length := Front(p), LengthFor(p, x, from);
    doc := Staged(place, from, length, x);
    StagedHolds(place, from, length, x);
    var xs := Elements(length, x, Rest(place, from));
    RichIsNotNull(Rest(place, from));
    InsertedDiffers(doc, p, Lookup(doc, from).value, xs, x);
    ElementAt(doc, place, xs, x);
  }

  lemma {:induction false} RichEdits(rest: Tokens, e: Edit)
    requires rest != [] && (e.Delete? || e.Insert?)
    ensures Update(Rich(rest), rest, e).Some? && Update(Rich(rest), rest, e).value.Obj?
  {
    if |rest| == 1 {
      TopUpdate(Rich(rest), rest, e);
    } else {
      RichEdits(rest[1..], e);
      DeepUpdate(Rich(rest), rest, e);
    }
  }

  /** Editing deep inside one element. */
  lemma EditInElement(doc: Json, place: Tokens, r: Tokens, e: Edit, xs: seq<Json>) returns (edited: Json)
    requires Lookup(doc, place) == Some(Arr(xs)) && IndexBelow(place, r).Some? && IndexBelow(place, r).value < |xs|
    requires |r| >= |place| + 2 && (e.Delete? || e.Insert?) && xs[IndexBelow(place, r).value] == Rich(Rest(place, r))
    ensures edited.Obj? && Update(doc, r, e).Some?
    ensures Lookup(Update(doc, r, e).value, place) == Some(Arr(xs[IndexBelow(place, r).value := edited]))
  {
    var below := r[|place|..];
    EditWithin(doc, place, r, e);
    assert below[0] == r[|place|] && below[1..] == Rest(place, r);
    RichEdits(Rest(place, r), e);
    DeepUpdate(Arr(xs), below, e);
    edited := Update(Rich(Rest(place, r)), Rest(place, r), e).value;
  }

  lemma MemberThere(doc: Json, r: Tokens)
    requires r != [] && ObjectAt(doc, Front(r)) && Lookup(doc, r).Some?
    ensures Last(r) in Lookup(doc, Front(r)).value.members
  {
    LookupThrough(doc, Front(r), r);
    assert r[|Front(r)|..] == [Last(r)];
  }

  /** Taking the value away from where it was read leaves the array as long and the elements in question what they were. */
  lemma FetchedAway(place: Tokens, from: Tokens, length: nat, x: nat) returns (xs: seq<Json>)
    requires Outside(place) && Outside(from) && !(from <= place) && Front(from) != place && AllowsArray(place, from)
    requires IndexBelow(place, from) != Some(x) && (IndexBelow(place, from).Some? ==> IndexBelow(place, from).value < length)
    ensures var doc := Staged(place, from, length, x);
            && Lookup(doc, from).Some? && Update(doc, from, Delete).Some?
            && Lookup(Update(doc, from, Delete).value, place) == Some(Arr(xs))
    ensures |xs| == length && forall m :: 0 <= m < length ==> (xs[m] == Null <==> m == x)
  {
    var doc := Staged(place, from, length, x);
    StagedHolds(place, from, length, x);
    xs := Elements(length, x, Rest(place, from));
    RichIsNotNull(Rest(place, from));
    if Below(place, from) {
      FurtherBelow(place, from);
      var edited := EditInElement(doc, place, from, Delete, xs);
      xs := xs[IndexBelow(place, from).value := edited];
    } else {
      GoesElsewhere(place, from);
      MemberThere(doc, from);
      EditDirectly(doc, from, Delete);
      BesideObject(doc, from, Delete, place);
    }
  }

  lemma FetchChanges(d: Operation, x: nat) returns (doc: Json)
    requires d.Move? && Addressable(d) && Outside(Address(d.path).value) && Outside(Address(d.from).value) && Applicable(d)
    requires var p, from := Address(d.path).value, Address(d.from).value;
             && |p| >= 2 && Front(from) != Front(p)
             && !(from <= Front(p)) && AllowsArray(Front(p), from) && IndexBelow(Front(p), from) != Some(x)
             && (Last(p) == "-" || (ParseIndex(Last(p)).Some? && ParseIndex(Last(p)).value < x))
             && (Last(p) == "-" && IndexBelow(Front(p), from).Some? ==> x > IndexBelow(Front(p), from).value)
    ensures ChangesReading(doc, d, Front(Address(d.path).value), x)
  {
    var p, from := Address(d.path).value, Address(d.from).value;
    var place, length := Front(p), LengthFor(p, x, from);
    doc := Staged(place, from, length, x);
    StagedHolds(place, from, length, x);
    var xs := FetchedAway(place, from, length, x);
    InsertedDiffers(Update(doc, from, Delete).value, p, Lookup(doc, from).value, xs, x);
    ElementAt(doc, place, Elements(length, x, Rest(place, from)), x);
  }

  /** Deleting an element before another changes what is read at the other. */
  lemma DeletedAt(doc: Json, p: Tokens, xs: seq<Json>)
    requires p != [] && Lookup(doc, Front(p)) == Some(Arr(xs)) && ParseIndex(Last(p)).Some? && ParseIndex(Last(p)).value < |xs|
    ensures Update(doc, p, Delete).Some? && Lookup(doc, p) == Some(xs[ParseIndex(Last(p)).value])
    ensures Lookup(Update(doc, p, Delete).value, Front(p)) == Some(Arr(Without(xs, ParseIndex(Last(p)).value)))
  {
    EditDirectly(doc, p, Delete);
    LookupThrough(doc, Front(p), p);
    assert p[|Front(p)|..] == [Last(p)] && [Last(p)][1..] == [];
  }

  lemma RemoveChanges(d: Operation, x: nat) returns (doc: Json)
    requires d.Remove? && Addressable(d) && Outside(Address(d.path).value) && |Address(d.path).value| >= 2
    requires ParseIndex(Last(Address(d.path).value)).Some? && ParseIndex(Last(Address(d.path).value)).value < x
    ensures ChangesReading(doc, d, Front(Address(d.path).value), x)
  {
    var p := Address(d.path).value;
    var place := Front(p);
    doc := Staged(place, p, x + 2, x + 1);
    StagedHolds(place, p, x + 2, x + 1);
    var xs := Elements(x + 2, x + 1, Rest(place, p));
    RichIsNotNull(Rest(place, p));
    DeletedAt(doc, p, xs);
    ElementAt(doc, place, xs, x);
    ElementAt(Update(doc, p, Delete).value, place, Without(xs, ParseIndex(Last(p)).value), x);
  }

  lemma DeleteChanges(d: Operation, x: nat) returns (doc: Json)
    requires d.Move? && Addressable(d) && Outside(Address(d.path).value) && Outside(Address(d.from).value) && Applicable(d)
    requires var p, from := Address(d.path).value, Address(d.from).value;
             && |from| >= 2 && Front(from) != Front(p)
             && !(p <= Front(from)) && AllowsArray(Front(from), p) && IndexBelow(Front(from), p) != Some(x)
             && ParseIndex(Last(from)).Some? && ParseIndex(Last(from)).value < x
    ensures ChangesReading(doc, d, Front(Address(d.from).value), x)
  {
    var p, from := Address(d.path).value, Address(d.from).value;
    var place, i := Front(from), ParseIndex(Last(from)).value;
    var length := x + IndexOr0(place, p) + 2;
    doc := Staged(place, p, length, x + 1);
    StagedHolds(place, p, length, x + 1);
    var xs := Elements(length, x + 1, Rest(place, p));
    RichIsNotNull(Rest(place, p));
    DeletedAt(doc, from, xs);
    ElementAt(doc, place, xs, x);
    var ys := LandsElsewhere(doc, from, p, xs, xs[i], x);
    var without := Update(doc, from, Delete).value;
    ElementAt(Update(without, p, Insert(xs[i])).value, place, ys, x);
  }

  /** Putting the deleted element somewhere else does not put back what was read. */
  lemma LandsElsewhere(doc: Json, from: Tokens, p: Tokens, xs: seq<Json>, v: Json, x: nat) returns (ys: seq<Json>)
    requires from != [] && p != [] && Front(from) != Front(p) && !(p <= Front(from)) && AllowsArray(Front(from), p)
    requires Lookup(doc, Front(from)) == Some(Arr(xs)) && ParseIndex(Last(from)).Some? && ParseIndex(Last(from)).value < x
    requires IndexBelow(Front(from), p) != Some(x) && |xs| >= x + IndexOr0(Front(from), p) + 2
    requires forall m :: 0 <= m < |xs| ==> xs[m] == if m == x + 1 then Null else Rich(Rest(Front(from), p))
    requires !Below(Front(from), p) ==> ObjectAt(doc, Front(p))
    ensures Update(doc, from, Delete).Some? && Update(Update(doc, from, Delete).value, p, Insert(v)).Some?
    ensures Lookup(Update(Update(doc, from, Delete).value, p, Insert(v)).value, Front(from)) == Some(Arr(ys))
    ensures |ys| > x && ys[x] == Null
  {
    var place, i := Front(from), ParseIndex(Last(from)).value;
    DeletedAt(doc, from, xs);
    var without := Update(doc, from, Delete).value;
    ys := Without(xs, i);
    if Below(place, p) {
      FurtherBelow(place, p);
      var edited := EditInElement(without, place, p, Insert(v), ys);
      ys := ys[IndexBelow(place, p).value := edited];
    } else {
      GoesElsewhere(place, p);
      AboveOther(place, from, p);
      ObjectStays(doc, from, Delete, Front(p));
      EditDirectly(without, p, Insert(v));
      BesideObject(without, p, Insert(v), place);
    }
  }

  lemma AboveOther(place: Tokens, from: Tokens, p: Tokens)
    requires from != [] && p != [] && place == Front(from) && !(place <= p)
    ensures !(from <= Front(p)) && !Below(place, Front(p))
  {
    FrontIsPrefix(from, Front(p));
    assert Front(p) <= p;
  }

  lemma FrontIsPrefix(a: Tokens, q: Tokens)
    requires a != []
    ensures a <= q ==> Front(a) <= q
  {
  }

  lemma ReorderChanges(d: Operation, x: nat) returns (doc: Json)
    requires d.Move? && Addressable(d) && Outside(Address(d.from).value) && Applicable(d)
    requires var p, from := Address(d.path).value, Address(d.from).value;
             && |p| >= 2 && Front(from) == Front(p) && ParseIndex(Last(from)).Some?
             && var i := ParseIndex(Last(from)).value;
                x != i && if Last(p) == "-" then x > i
                          else ParseIndex(Last(p)).Some? && x != ParseIndex(Last(p)).value && Between(x, i, ParseIndex(Last(p)).value)
    ensures ChangesReading(doc, d, Front(Address(d.path).value), x)
  {
    var p, from := Address(d.path).value, Address(d.from).value;
    var place, i, target := Front(p), ParseIndex(Last(from)).value, Target(Last(p));
    var length := x + i + target.GetOr(0) + 2;
    doc := Staged(place, from, length, x);
    StagedHolds(place, from, length, x);
    var xs := Elements(length, x, Rest(place, from));
    RichIsNotNull(Rest(place, from));
    MoveIsReorder(doc, from, p);
    EditDirectly(doc, from, Reorder(target));
    ElementAt(doc, place, xs, x);
    var ys := Moved(xs, i, target);
    MovedReading(xs, i, target, x);
    ElementAt(Update(doc, from, Reorder(target)).value, place, ys, x);
  }

  lemma MovedReading(xs: seq<Json>, i: nat, target: Option<nat>, x: nat)
    requires i < |xs| && 0 <= End(target, |xs|) < |xs| && x < |xs| && x != i && x != End(target, |xs|) && Between(x, i, End(target, |xs|))
    ensures Moved(xs, i, target)[x] == if i < x then xs[x + 1] else xs[x - 1]
  {
  }

  // ---------------------------------------------------------------------------------------------
  // The theorem.

  /** The side of an insertion: what passes through its array can be brought down to one element. */
  lemma InsertSide(d: Operation, pointer: string, place: Tokens, own: Tokens, other: Tokens) returns (x: nat, element: string)
    requires PolicyApproved(d) && Addressable(d) && Applicable(d) && LetsPass(d, pointer) && Places(d) <= {own, other}
    requires place != [] && own != [] && Front(own) == place && IndexBelow(place, DecodePointer(pointer).value).Some?
    requires ParseIndex(Last(own)).Some? ==> ParseIndex(Last(own)).value <= IndexBelow(place, DecodePointer(pointer).value).value
    requires own in Places(d) && other in Places(d)
    ensures Sibling(d, place, x, element) && x >= IndexBelow(place, DecodePointer(pointer).value).value
    ensures !(other <= place) && IndexBelow(place, other) != Some(x) && ParseIndex(Last(own)) != Some(x)
    ensures Outside(own) && Outside(other) && place[0] != "revision"
  {
    assert own[..|place|] == place && own[|place|] == Last(own);
    PassedIsApart(d, pointer, own);
    if IndexBelow(place, own) == IndexBelow(place, DecodePointer(pointer).value) {
      EndsAtElement(place, DecodePointer(pointer).value, own);
    }
    x, element := SomeSibling(d, pointer, place);
    SiblingApart(d, place, x, element, own);
    SiblingApart(d, place, x, element, other);
    PlaceIsOutside(d, own);
    PlaceIsOutside(d, other);
    assert place[0] == own[0];
  }

  lemma ReorderSide(d: Operation, pointer: string) returns (x: nat, element: string)
    requires PolicyApproved(d) && Addressable(d) && d.Move? && Applicable(d) && LetsPass(d, pointer)
    requires var p, from := Address(d.path).value, Address(d.from).value;
             Front(from) == Front(p) && ReorderShifts(from, p, DecodePointer(pointer).value)
    ensures Front(Address(d.path).value) != [] && Front(Address(d.path).value)[0] != "revision" && Outside(Address(d.from).value)
    ensures Sibling(d, Front(Address(d.path).value), x, element)
    ensures x == IndexBelow(Front(Address(d.path).value), DecodePointer(pointer).value).value
    ensures ParseIndex(Last(Address(d.from).value)) != Some(x) && ParseIndex(Last(Address(d.path).value)) != Some(x)
  {
    var p, from := Address(d.path).value, Address(d.from).value;
    var place, q := Front(p), DecodePointer(pointer).value;
    FrontOfOne(p);
    assert |from| == |p| && from[..|place|] == place && from[|place|] == Last(from) && p[|place|] == Last(p);
    PassedIsApart(d, pointer, from);
    PassedIsApart(d, pointer, p);
    if IndexBelow(place, from) == IndexBelow(place, q) {
      EndsAtElement(place, q, from);
    }
    if IndexBelow(place, p) == IndexBelow(place, q) {
      EndsAtElement(place, q, p);
    }
    x, element := SomeSibling(d, pointer, place);
    SiblingApart(d, place, x, element, from);
    SiblingApart(d, place, x, element, p);
    PlaceIsOutside(d, from);
    assert place[0] == from[0];
  }

  /** A document on which the operation changes what a pointer that passes reads. */
  ghost predicate Spoils(d: Operation, place: Tokens, x: nat, element: string, doc: Json)
    requires Addressable(d)
  {
    && place != [] && place[0] != "revision" && Sibling(d, place, x, element)
    && ChangesReading(doc, d, place, x)
  }

  lemma MoveSpoils(d: Operation, pointer: string) returns (place: Tokens, x: nat, element: string, doc: Json)
    requires PolicyApproved(d) && Addressable(d) && d.Move? && LetsPass(d, pointer) && Shifts(d, DecodePointer(pointer).value)
    ensures Spoils(d, place, x, element, doc)
  {
    var p, from := Address(d.path).value, Address(d.from).value;
    FrontOfOne(p);
    FrontOfOne(from);
    place := Front(p);
    if Front(from) == Front(p) {
      x, element := ReorderSide(d, pointer);
      doc := ReorderChanges(d, x);
    } else if FetchShifts(from, p, DecodePointer(pointer).value) {
      x, element := InsertSide(d, pointer, place, p, from);
      doc := FetchChanges(d, x);
    } else {
      place := Front(from);
      x, element := InsertSide(d, pointer, place, from, p);
      doc := DeleteChanges(d, x);
    }
  }

  lemma EditSpoils(d: Operation, pointer: string) returns (place: Tokens, x: nat, element: string, doc: Json)
    requires PolicyApproved(d) && Addressable(d) && !d.Move? && LetsPass(d, pointer) && Shifts(d, DecodePointer(pointer).value)
    ensures Spoils(d, place, x, element, doc)
  {
    var p := Address(d.path).value;
    FrontOfOne(p);
    place := Front(p);
    if d.Copy? {
      x, element := InsertSide(d, pointer, place, p, Address(d.from).value);
      doc := CopyChanges(d, x);
    } else {
      x, element := InsertSide(d, pointer, place, p, p);
      if d.Add? {
        doc := AddChanges(d, x);
      } else {
        doc := RemoveChanges(d, x);
      }
    }
  }

  /** Where a pointer passes through a shifted element, a rebase goes wrong. */
  lemma ShiftIsMissed(d: Operation, pointer: string) returns (op: Operation)
    requires PolicyApproved(d) && Addressable(d) && !d.Test? && LetsPass(d, pointer) && Shifts(d, DecodePointer(pointer).value)
    ensures PolicyApproved(op) && ClearOf(op, ChangedPaths([d])) && !AlwaysRebases([op], d)
  {
    var place, x, element, doc;
    if d.Move? {
      place, x, element, doc := MoveSpoils(d, pointer);
    } else {
      place, x, element, doc := EditSpoils(d, pointer);
    }
    op := ChangedReadingSpoils(doc, d, place, x, element);
  }

  /** Detection is enough exactly for the committed operations that miss nothing: past those every approved patch that
      passes beside them can be rebased on every document, and past the others some cannot. */
  lemma DetectionIsExactly(d: Operation)
    requires PolicyApproved(d) && Addressable(d) && !d.Test?
    ensures (forall ops :: AllApproved(ops) && AllClear(ops, ChangedPaths([d])) ==> AlwaysRebases(ops, d)) <==> !Misses(d)
  {
    if Misses(d) {
      var pointer :| LetsPass(d, pointer) && Shifts(d, DecodePointer(pointer).value);
      var op := ShiftIsMissed(d, pointer);
      assert AllApproved([op]) && AllClear([op], ChangedPaths([d]));
    } else {
      NothingMissedTogether([d]);
      forall ops | AllApproved(ops) && AllClear(ops, ChangedPaths([d])) ensures AlwaysRebases(ops, d) {
        DetectionImpliesCommuting(ops, [d]);
        forall doc, name | Stamped(doc) && Commit(doc, Change([d], name)).Some? ensures Rebases(doc, ops, Change([d], name)) {
          RebasePastOne(doc, ops, Change([d], name));
        }
      }
    }
  }
}
