/** JSON documents and the six patch operations of section 4 of RFC 6902, with the commutation
    theory behind rebasing: edits whose footprints do not overlap can be exchanged. */
module JsonPatch {
  import opened Wrappers
  import opened Decimal
  import opened Pointer

  datatype Json =
    | Null
    | Bool(b: bool)
    | Num(n: real)
    | Str(s: string)
    | Arr(items: seq<Json>)
    | Obj(members: map<string, Json>)

  datatype Operation =
    | Add(path: string, value: Json)
    | Remove(path: string)
    | Replace(path: string, value: Json)
    | Move(from: string, path: string)
    | Copy(from: string, path: string)
    | Test(path: string, value: Json)

  type Tokens = seq<string>

  /** What an operation does to one member of its parent container; moving an element inside its array, to an index or to
      the end, reorders the array. */
  datatype Edit = Insert(value: Json) | Assign(value: Json) | Delete | Reorder(target: Option<nat>)

  /** Array indexes of section 4 of RFC 6901: no sign and no leading zero. */
  function ParseIndex(token: string): Option<nat> {
    if token == "" || !AllDigits(token) || (|token| > 1 && token[0] == '0') then None
    else Some(ToNat(token))
  }

  function Child(container: Json, key: string): Option<Json> {
    match container
    case Obj(m) => if key in m then Some(m[key]) else None
    case Arr(xs) =>
      var i :- ParseIndex(key);
      if i < |xs| then Some(xs[i]) else None
    case _ => None
  }

  function EditMember(container: Json, key: string, edit: Edit): Option<Json> {
    match container
    case Obj(m) =>
      (match edit
       case Insert(v) => Some(Obj(m[key := v]))
       case Assign(v) => if key in m then Some(Obj(m[key := v])) else None
       case Delete => if key in m then Some(Obj(m - {key})) else None
       case Reorder(_) => None)
    case Arr(xs) =>
      if edit.Insert? && key == "-" then Some(Arr(xs + [edit.value]))
      else
        var i :- ParseIndex(key);
        (match edit
         case Insert(v) => if i <= |xs| then Some(Arr(xs[..i] + [v] + xs[i..])) else None
         case Assign(v) => if i < |xs| then Some(Arr(xs[i := v])) else None
         case Delete => if i < |xs| then Some(Arr(Without(xs, i))) else None
         case Reorder(target) => if i < |xs| && End(target, |xs|) < |xs| then Some(Arr(Moved(xs, i, target))) else None)
    case _ => None
  }

  function Without<T>(xs: seq<T>, i: nat): seq<T>
    requires i < |xs|
  {
    xs[..i] + xs[i + 1..]
  }

  /** Where an element goes that is moved to an index or to the end. */
  function End(target: Option<nat>, length: nat): int {
    if target.Some? then target.value else length - 1
  }

  function Moved<T>(xs: seq<T>, i: nat, target: Option<nat>): seq<T>
    requires i < |xs| && End(target, |xs|) < |xs|
  {
    var rest, j := Without(xs, i), End(target, |xs|);
    rest[..j] + [xs[i]] + rest[j..]
  }

  function Lookup(doc: Json, path: Tokens): Option<Json> {
    if path == [] then Some(doc)
    else
      var child :- Child(doc, path[0]);
      Lookup(child, path[1..])
  }

  /** The edit that a deep edit amounts to at the first container on its path. */
  function TopEdit(doc: Json, path: Tokens, edit: Edit): Option<Edit>
    requires path != []
    decreases path, 0
  {
    if |path| == 1 then Some(edit)
    else
      var child :- Child(doc, path[0]);
      var edited :- Update(child, path[1..], edit);
      Some(Assign(edited))
  }

  function Update(doc: Json, path: Tokens, edit: Edit): Option<Json>
    requires path != []
    decreases path, 1
  {
    var top :- TopEdit(doc, path, edit);
    EditMember(doc, path[0], top)
  }

  /** Pointers reach this module through `DecodePointer`, which never yields the empty token list. */
  function Address(path: string): Option<Tokens> {
    var tokens :- DecodePointer(path);
    if tokens == [] then None else Some(tokens)
  }

  function CopyMember(doc: Json, from: Tokens, path: Tokens): Option<Json>
    requires path != []
  {
    var v :- Lookup(doc, from);
    Update(doc, path, Insert(v))
  }

  /** A member cannot be moved into itself. */
  function MoveMember(doc: Json, from: Tokens, path: Tokens): Option<Json>
    requires from != [] && path != []
  {
    if from < path then None
    else
      var v :- Lookup(doc, from);
      var without :- Update(doc, from, Delete);
      Update(without, path, Insert(v))
  }

  function Apply(doc: Json, op: Operation): Option<Json> {
    var path :- Address(op.path);
    match op
    case Add(_, v) => Update(doc, path, Insert(v))
    case Remove(_) => Update(doc, path, Delete)
    case Replace(_, v) => Update(doc, path, Assign(v))
    case Test(_, v) => if Lookup(doc, path) == Some(v) then Some(doc) else None
    case Copy(source, _) =>
      var from :- Address(source);
      CopyMember(doc, from, path)
    case Move(source, _) =>
      var from :- Address(source);
      MoveMember(doc, from, path)
  }

  function ApplyAll(doc: Json, ops: seq<Operation>): Option<Json>
    decreases |ops|
  {
    if ops == [] then Some(doc)
    else
      var next :- Apply(doc, ops[0]);
      ApplyAll(next, ops[1..])
  }

  // ---------------------------------------------------------------------------------------------
  // Footprints.

  predicate Overlap(p: Tokens, q: Tokens) {
    p <= q || q <= p
  }

  predicate Disjoint(ps: set<Tokens>, qs: set<Tokens>) {
    forall p, q :: p in ps && q in qs ==> !Overlap(p, q)
  }

  /** A structural edit of an array element moves its siblings, so it also touches the array. */
  function Widened(path: Tokens): set<Tokens>
    requires path != []
  {
    if |path| >= 2 && IsArrayIndex(path[|path| - 1]) then {path, path[..|path| - 1]} else {path}
  }

  function EditFootprint(path: Tokens, edit: Edit): set<Tokens>
    requires path != []
  {
    if edit.Assign? then {path} else Widened(path)
  }

  predicate IsStructural(op: Operation) {
    op.Add? || op.Copy? || op.Move? || op.Remove?
  }

  predicate Addressable(op: Operation) {
    Address(op.path).Some? && (op.Move? || op.Copy? ==> Address(op.from).Some?)
  }

  function Footprint(op: Operation): set<Tokens>
    requires Addressable(op)
  {
    var path := Address(op.path).value;
    if op.Move? || op.Copy? then Widened(path) + Widened(Address(op.from).value)
    else if IsStructural(op) then Widened(path)
    else {path}
  }

  // ---------------------------------------------------------------------------------------------
  // One container.

  lemma IndexTokens(k: string, l: string)
    requires ParseIndex(k).Some? && ParseIndex(k) == ParseIndex(l)
    ensures k == l
  {
    CanonicalNumeralsDiffer(k, l);
  }

  lemma NumeralParses(n: nat)
    ensures ParseIndex(Numeral(n)) == Some(n)
  {
    ToNatNumeral(n);
    NumeralIsCanonical(n);
    if n == 0 {
      assert Numeral(n) == "0";
    }
  }

  lemma ParsedIsArrayIndex(k: string)
    requires ParseIndex(k).Some?
    ensures IsArrayIndex(k)
  {
  }

  /** An array only tolerates a structural edit under a token that the widening recognises. */
  predicate Restructures(container: Json, key: string, edit: Edit) {
    !container.Obj? && !edit.Assign? && IsArrayIndex(key)
  }

  /** The edit moves, drops or brings the element that another token names. */
  predicate Disturbs(container: Json, key: string, edit: Edit, other: string) {
    container.Arr? && ParseIndex(other).Some?
    && var x, n := ParseIndex(other).value, |container.items|;
       match edit
       case Assign(_) => false
       case Insert(_) => if key == "-" then x >= n else ParseIndex(key).Some? && x >= ParseIndex(key).value
       case Delete => ParseIndex(key).Some? && x >= ParseIndex(key).value
       case Reorder(target) => ParseIndex(key).Some? && Between(x, ParseIndex(key).value, End(target, n))
  }

  predicate Between(x: int, a: int, b: int) {
    a <= x <= b || b <= x <= a
  }

  lemma RestructuringOnly(container: Json, key: string, edit: Edit, other: string)
    requires !Restructures(container, key, edit)
    ensures !Disturbs(container, key, edit, other)
  {
    if ParseIndex(key).Some? {
      ParsedIsArrayIndex(key);
    }
  }

  lemma AssignedChild(c: Json, k: string, v: Json)
    requires EditMember(c, k, Assign(v)).Some?
    ensures Child(EditMember(c, k, Assign(v)).value, k) == Some(v)
  {
  }

  lemma SiblingChild(c: Json, k: string, e: Edit, l: string)
    requires k != l && !Disturbs(c, k, e, l)
    requires EditMember(c, k, e).Some?
    ensures Child(EditMember(c, k, e).value, l) == Child(c, l)
  {
    if c.Arr? && ParseIndex(k).Some? && ParseIndex(l).Some? {
      if ParseIndex(l) == ParseIndex(k) {
        IndexTokens(k, l);
      }
    }
  }

  /** Assigning an element that an array edit does not disturb. */
  lemma ArrayEditPastAssign(xs: seq<Json>, k: string, e: Edit, l: string, v: Json)
    requires k != l && !Disturbs(Arr(xs), k, e, l) && EditMember(Arr(xs), k, e).Some?
    ensures var c1 := EditMember(Arr(xs), k, e).value;
            && (EditMember(c1, l, Assign(v)).Some? <==> EditMember(Arr(xs), l, Assign(v)).Some?)
            && (EditMember(Arr(xs), l, Assign(v)).Some? ==>
                  EditMember(EditMember(Arr(xs), l, Assign(v)).value, k, e) == EditMember(c1, l, Assign(v)))
  {
    if ParseIndex(l).Some? && ParseIndex(l).value < |xs| {
      var m := ParseIndex(l).value;
      if e.Insert? && k == "-" {
        assert (xs + [e.value])[m := v] == xs[m := v] + [e.value];
      } else {
        if ParseIndex(l) == ParseIndex(k) {
          IndexTokens(k, l);
        }
        EditPastAssignAt(xs, ParseIndex(k).value, e, m, v);
      }
    }
  }

  lemma EditPastAssignAt(xs: seq<Json>, i: nat, e: Edit, m: nat, v: Json)
    requires m < |xs| && m != i
    ensures e.Insert? && m < i <= |xs| ==>
              (xs[..i] + [e.value] + xs[i..])[m := v] == xs[m := v][..i] + [e.value] + xs[m := v][i..]
    ensures e.Assign? && i < |xs| ==> xs[i := e.value][m := v] == xs[m := v][i := e.value]
    ensures e.Delete? && m < i < |xs| ==> Without(xs, i)[m := v] == Without(xs[m := v], i)
    ensures e.Reorder? && i < |xs| && End(e.target, |xs|) < |xs| && !Between(m, i, End(e.target, |xs|)) ==>
              Moved(xs, i, e.target)[m := v] == Moved(xs[m := v], i, e.target)
  {
  }

  lemma SiblingEdits(c: Json, k: string, e: Edit, l: string, f: Edit)
    requires k != l && !Disturbs(c, k, e, l) && !Restructures(c, l, f)
    requires EditMember(c, k, e).Some?
    ensures var c1 := EditMember(c, k, e).value;
            && (EditMember(c1, l, f).Some? <==> EditMember(c, l, f).Some?)
            && (EditMember(c, l, f).Some? ==>
                  EditMember(EditMember(c, l, f).value, k, e) == EditMember(c1, l, f))
  {
    if c.Arr? {
      if f.Assign? {
        ArrayEditPastAssign(c.items, k, e, l, f.value);
      } else if ParseIndex(l).Some? {
        ParsedIsArrayIndex(l);
      }
    } else if EditMember(c, l, f).Some? {
      var one := EditMember(EditMember(c, l, f).value, k, e).value.members;
      var two := EditMember(EditMember(c, k, e).value, l, f).value.members;
      assert one.Keys == two.Keys;
      assert one == two;
    }
  }

  lemma ReassignedMember(c: Json, k: string, v: Json, w: Json)
    requires EditMember(c, k, Assign(v)).Some?
    ensures EditMember(EditMember(c, k, Assign(v)).value, k, Assign(w)) == EditMember(c, k, Assign(w))
  {
    if c.Arr? {
      var i := ParseIndex(k).value;
      assert c.items[i := v][i := w] == c.items[i := w];
    } else {
      assert c.members[k := v][k := w] == c.members[k := w];
    }
  }

  // ---------------------------------------------------------------------------------------------
  // Paths.

  lemma OverlapTail(p: Tokens, q: Tokens)
    requires p != [] && q != [] && p[0] == q[0]
    ensures Overlap(p, q) <==> Overlap(p[1..], q[1..])
  {
    assert p == [p[0]] + p[1..] && q == [q[0]] + q[1..];
  }

  function Front(p: Tokens): Tokens
    requires p != []
  {
    p[..|p| - 1]
  }

  function Last(p: Tokens): string
    requires p != []
  {
    p[|p| - 1]
  }

  /** The path goes on below this place. */
  predicate Below(place: Tokens, q: Tokens) {
    |q| > |place| && q[..|place|] == place
  }

  /** The edit neither touches what `q` names nor disturbs the element of its array that `q` leads through. */
  predicate Clear(doc: Json, p: Tokens, e: Edit, q: Tokens)
    requires p != []
  {
    && !Overlap(p, q)
    && (Below(Front(p), q) && Lookup(doc, Front(p)).Some? ==> !Disturbs(Lookup(doc, Front(p)).value, Last(p), e, q[|p| - 1]))
  }

  /** Whatever the document, an index-like structural edit at `p` keeps its whole array away from `q`. */
  predicate Apart(doc: Json, p: Tokens, e: Edit, q: Tokens)
    requires p != []
  {
    && !Overlap(p, q)
    && (!e.Assign? && IsArrayIndex(Last(p)) && (|p| >= 2 || !doc.Obj?) ==> !Overlap(Front(p), q))
  }

  lemma ApartIsClear(doc: Json, p: Tokens, e: Edit, q: Tokens)
    requires p != [] && Apart(doc, p, e, q)
    ensures Clear(doc, p, e, q)
  {
    if Below(Front(p), q) && Lookup(doc, Front(p)).Some? {
      assert Front(p) <= q;
      RestructuringOnly(Lookup(doc, Front(p)).value, Last(p), e, q[|p| - 1]);
    }
  }

  lemma TailParts(p: Tokens)
    requires |p| >= 2
    ensures Front(p)[0] == p[0] && Front(p[1..]) == Front(p)[1..] && Last(p[1..]) == Last(p)
  {
  }

  lemma ClearTail(doc: Json, p: Tokens, e: Edit, q: Tokens)
    requires |p| >= 2 && q != [] && p[0] == q[0] && Clear(doc, p, e, q) && Child(doc, p[0]).Some?
    ensures Clear(Child(doc, p[0]).value, p[1..], e, q[1..])
  {
    OverlapTail(p, q);
    TailParts(p);
    if Below(Front(p[1..]), q[1..]) {
      assert q[..|p| - 1] == [q[0]] + q[1..][..|p| - 2] && Front(p) == [p[0]] + Front(p)[1..];
    }
  }

  lemma ApartTail(doc: Json, child: Json, p: Tokens, e: Edit, q: Tokens)
    requires |p| >= 2 && q != [] && p[0] == q[0] && Apart(doc, p, e, q)
    ensures Apart(child, p[1..], e, q[1..])
  {
    OverlapTail(p, q);
    OverlapTail(Front(p), q);
    TailParts(p);
  }

  lemma ClearHead(doc: Json, p: Tokens, e: Edit, q: Tokens)
    requires p != [] && q != [] && p[0] != q[0] && Clear(doc, p, e, q) && TopEdit(doc, p, e).Some?
    ensures !Disturbs(doc, p[0], TopEdit(doc, p, e).value, q[0])
  {
    if |p| == 1 {
      assert Front(p) == [] && Below(Front(p), q);
    }
  }

  lemma ApartHead(doc: Json, p: Tokens, e: Edit, q: Tokens)
    requires p != [] && Apart(doc, p, e, q) && TopEdit(doc, p, e).Some?
    ensures !Restructures(doc, p[0], TopEdit(doc, p, e).value)
  {
    if |p| == 1 {
      assert Front(p) == [];
    }
  }

  lemma SameHead(p: Tokens, q: Tokens)
    requires p != [] && q != [] && p[0] == q[0] && !Overlap(p, q)
    ensures |p| >= 2 && |q| >= 2
  {
    OverlapTail(p, q);
  }

  /** Reading elsewhere is not disturbed by an edit. */
  lemma {:induction false} LookupPastUpdate(doc: Json, p: Tokens, e: Edit, q: Tokens)
    requires p != [] && Clear(doc, p, e, q)
    requires Update(doc, p, e).Some?
    ensures Lookup(Update(doc, p, e).value, q) == Lookup(doc, q)
    decreases |p|
  {
    var edited := Update(doc, p, e).value;
    if p[0] == q[0] {
      SameHead(p, q);
      var child := Child(doc, p[0]).value;
      ClearTail(doc, p, e, q);
      LookupPastUpdate(child, p[1..], e, q[1..]);
      AssignedChild(doc, p[0], Update(child, p[1..], e).value);
    } else {
      ClearHead(doc, p, e, q);
      SiblingChild(doc, p[0], TopEdit(doc, p, e).value, q[0]);
    }
  }

  lemma UpdatesAtSiblings(doc: Json, p: Tokens, e: Edit, q: Tokens, f: Edit)
    requires p != [] && q != [] && p[0] != q[0] && Clear(doc, p, e, q) && Apart(doc, q, f, p)
    requires Update(doc, p, e).Some?
    ensures var first := Update(doc, p, e).value;
            && (Update(first, q, f).Some? <==> Update(doc, q, f).Some?)
            && (Update(doc, q, f).Some? ==> Update(Update(doc, q, f).value, p, e) == Update(first, q, f))
  {
    var first, k, l, top := Update(doc, p, e).value, p[0], q[0], TopEdit(doc, p, e).value;
    ClearHead(doc, p, e, q);
    SiblingChild(doc, k, top, l);
    assert TopEdit(first, q, f) == TopEdit(doc, q, f);
    if TopEdit(doc, q, f).Some? {
      var top2 := TopEdit(doc, q, f).value;
      ApartHead(doc, q, f, p);
      SiblingEdits(doc, k, top, l, top2);
      if Update(doc, q, f).Some? {
        RestructuringOnly(doc, l, top2, k);
        SiblingChild(doc, l, top2, k);
        assert TopEdit(Update(doc, q, f).value, p, e) == TopEdit(doc, p, e);
      }
    }
  }

  /** Two edits that keep clear of each other can be exchanged, and neither decides whether the other succeeds. */
  lemma {:induction false} UpdatesCommute(doc: Json, p: Tokens, e: Edit, q: Tokens, f: Edit)
    requires p != [] && q != [] && Clear(doc, p, e, q) && Apart(doc, q, f, p)
    requires Update(doc, p, e).Some?
    ensures var first := Update(doc, p, e).value;
            && (Update(first, q, f).Some? <==> Update(doc, q, f).Some?)
            && (Update(doc, q, f).Some? ==> Update(Update(doc, q, f).value, p, e) == Update(first, q, f))
    decreases |p|
  {
    var k := p[0];
    if k == q[0] {
      SameHead(p, q);
      var child := Child(doc, k).value;
      ClearTail(doc, p, e, q);
      ApartTail(doc, child, q, f, p);
      UpdatesCommute(child, p[1..], e, q[1..], f);
      var child1 := Update(child, p[1..], e).value;
      AssignedChild(doc, k, child1);
      if Update(child, q[1..], f).Some? {
        var child2 := Update(child, q[1..], f).value;
        AssignedChild(doc, k, child2);
        ReassignedMember(doc, k, child1, Update(child1, q[1..], f).value);
        ReassignedMember(doc, k, child2, Update(child1, q[1..], f).value);
      }
    } else {
      UpdatesAtSiblings(doc, p, e, q, f);
    }
  }

  // ---------------------------------------------------------------------------------------------
  // Operations.

  lemma DisjointIsApart(doc: Json, p: Tokens, e: Edit, others: set<Tokens>, q: Tokens)
    requires doc.Obj? && p != [] && Disjoint(EditFootprint(p, e), others) && q in others
    ensures Apart(doc, p, e, q) && Clear(doc, p, e, q)
  {
    ApartIsClear(doc, p, e, q);
  }

  lemma DisjointBothWays(ps: set<Tokens>, qs: set<Tokens>)
    requires Disjoint(ps, qs)
    ensures Disjoint(qs, ps)
  {
  }

  lemma RootStaysObject(doc: Json, op: Operation)
    requires doc.Obj? && Apply(doc, op).Some?
    ensures Apply(doc, op).value.Obj?
  {
  }

  /** Everything an operation says about one edit made elsewhere. */
  ghost predicate PastEdit(doc: Json, q: Tokens, f: Edit, op: Operation)
    requires q != [] && Update(doc, q, f).Some?
  {
    var edited := Update(doc, q, f).value;
    && (Apply(edited, op).Some? <==> Apply(doc, op).Some?)
    && (Apply(doc, op).Some? ==> Update(Apply(doc, op).value, q, f) == Apply(edited, op))
  }

  /** The places an operation names. */
  function Places(op: Operation): set<Tokens>
    requires Addressable(op)
  {
    if op.Move? || op.Copy? then {Address(op.path).value, Address(op.from).value} else {Address(op.path).value}
  }

  predicate Avoids(footprint: set<Tokens>, p: Tokens) {
    forall g :: g in footprint ==> !Overlap(g, p)
  }

  lemma AvoidsIsApart(doc: Json, op: Operation, p: Tokens, e: Edit, q: Tokens)
    requires doc.Obj? && Addressable(op) && Avoids(Footprint(op), q)
    requires p != [] && EditFootprint(p, e) <= Footprint(op)
    ensures Apart(doc, p, e, q)
  {
  }

  lemma PlaceFootprints(op: Operation)
    requires Addressable(op)
    ensures Places(op) <= Footprint(op)
    ensures IsStructural(op) ==> Widened(Address(op.path).value) <= Footprint(op)
    ensures op.Move? || op.Copy? ==> Widened(Address(op.from).value) <= Footprint(op)
  {
  }

  /** What matters about a container for being disturbed: whether it is an array, and how long. */
  function Shape(found: Option<Json>): Option<nat> {
    if found.Some? && found.value.Arr? then Some(|found.value.items|) else None
  }

  lemma EditKeepsShape(c: Json, k: string, e: Edit)
    requires EditMember(c, k, e).Some? && !Restructures(c, k, e)
    ensures Shape(EditMember(c, k, e)) == Shape(Some(c))
  {
    if c.Arr? && ParseIndex(k).Some? {
      ParsedIsArrayIndex(k);
    }
  }

  /** An edit kept apart from a place leaves the shape of the container around the place. */
  lemma {:induction false} ShapeKept(doc: Json, r: Tokens, e: Edit, q: Tokens)
    requires r != [] && q != [] && Apart(doc, r, e, q) && Update(doc, r, e).Some?
    ensures Shape(Lookup(Update(doc, r, e).value, Front(q))) == Shape(Lookup(doc, Front(q)))
    decreases |r|
  {
    var after, top := Update(doc, r, e).value, TopEdit(doc, r, e).value;
    ApartHead(doc, r, e, q);
    if |q| == 1 {
      assert Front(q) == [];
      EditKeepsShape(doc, r[0], top);
    } else {
      TailParts(q);
      assert Front(q)[0] == q[0];
      if r[0] == q[0] {
        SameHead(r, q);
        var child := Child(doc, r[0]).value;
        ApartTail(doc, child, r, e, q);
        ShapeKept(child, r[1..], e, q[1..]);
        AssignedChild(doc, r[0], Update(child, r[1..], e).value);
      } else {
        RestructuringOnly(doc, r[0], top, q[0]);
        SiblingChild(doc, r[0], top, q[0]);
      }
    }
  }

  lemma SameShapeSameClear(a: Json, b: Json, p: Tokens, e: Edit, q: Tokens)
    requires p != [] && Clear(a, p, e, q) && Shape(Lookup(a, Front(p))) == Shape(Lookup(b, Front(p)))
    ensures Clear(b, p, e, q)
  {
  }

  lemma EditPastCopy(doc: Json, q: Tokens, f: Edit, from: Tokens, p: Tokens)
    requires doc.Obj? && q != [] && p != [] && Update(doc, q, f).Some?
    requires Clear(doc, q, f, from) && Clear(doc, q, f, p)
    requires forall v :: Apart(doc, p, Insert(v), q)
    ensures var edited := Update(doc, q, f).value;
            && (CopyMember(edited, from, p).Some? <==> CopyMember(doc, from, p).Some?)
            && (CopyMember(doc, from, p).Some? ==>
                  Update(CopyMember(doc, from, p).value, q, f) == CopyMember(edited, from, p))
  {
    LookupPastUpdate(doc, q, f, from);
    if Lookup(doc, from).Some? {
      var v := Lookup(doc, from).value;
      assert Apart(doc, p, Insert(v), q);
      UpdatesCommute(doc, q, f, p, Insert(v));
    }
  }

  lemma EditPastMove(doc: Json, q: Tokens, f: Edit, from: Tokens, p: Tokens)
    requires doc.Obj? && q != [] && p != [] && from != [] && Update(doc, q, f).Some?
    requires Clear(doc, q, f, from) && Clear(doc, q, f, p)
    requires Apart(doc, from, Delete, q) && forall v :: Apart(doc, p, Insert(v), q)
    ensures var edited := Update(doc, q, f).value;
            && (MoveMember(edited, from, p).Some? <==> MoveMember(doc, from, p).Some?)
            && (MoveMember(doc, from, p).Some? ==>
                  Update(MoveMember(doc, from, p).value, q, f) == MoveMember(edited, from, p))
  {
    LookupPastUpdate(doc, q, f, from);
    UpdatesCommute(doc, q, f, from, Delete);
    if Lookup(doc, from).Some? && Update(doc, from, Delete).Some? {
      var v, without := Lookup(doc, from).value, Update(doc, from, Delete).value;
      assert Apart(doc, p, Insert(v), q);
      assert Apart(without, p, Insert(v), q);
      ShapeKept(doc, from, Delete, q);
      SameShapeSameClear(doc, without, q, f, p);
      UpdatesCommute(without, q, f, p, Insert(v));
    }
  }

  /** An edit can be moved past an operation that avoids its place, when it is clear of the places the operation names. */
  lemma EditPast(doc: Json, q: Tokens, f: Edit, op: Operation)
    requires doc.Obj? && q != [] && Addressable(op) && Avoids(Footprint(op), q)
    requires forall p :: p in Places(op) ==> Clear(doc, q, f, p)
    requires Update(doc, q, f).Some?
    ensures PastEdit(doc, q, f, op)
  {
    var p := Address(op.path).value;
    PlaceFootprints(op);
    forall e | EditFootprint(p, e) <= Footprint(op) ensures Apart(doc, p, e, q) {
      AvoidsIsApart(doc, op, p, e, q);
    }
    match op
    case Add(_, v) => UpdatesCommute(doc, q, f, p, Insert(v));
    case Remove(_) => UpdatesCommute(doc, q, f, p, Delete);
    case Replace(_, v) => UpdatesCommute(doc, q, f, p, Assign(v));
    case Test(_, v) => LookupPastUpdate(doc, q, f, p);
    case Copy(source, _) =>
      EditPastCopy(doc, q, f, Address(source).value, p);
    case Move(source, _) =>
      AvoidsIsApart(doc, op, Address(source).value, Delete, q);
      EditPastMove(doc, q, f, Address(source).value, p);
  }

  /** An edit can be moved past an operation with a disjoint footprint. */
  lemma EditPastOperation(doc: Json, q: Tokens, f: Edit, op: Operation)
    requires doc.Obj? && q != [] && Addressable(op)
    requires Disjoint(Footprint(op), EditFootprint(q, f))
    requires Update(doc, q, f).Some?
    ensures PastEdit(doc, q, f, op)
  {
    PlaceFootprints(op);
    DisjointBothWays(Footprint(op), EditFootprint(q, f));
    forall p | p in Places(op) ensures Clear(doc, q, f, p) {
      DisjointIsApart(doc, q, f, Footprint(op), p);
    }
    EditPast(doc, q, f, op);
  }

  /** Reading elsewhere is not disturbed by an operation. */
  lemma LookupPastOperation(doc: Json, op: Operation, q: Tokens)
    requires doc.Obj? && Addressable(op) && Avoids(Footprint(op), q)
    requires Apply(doc, op).Some?
    ensures Lookup(Apply(doc, op).value, q) == Lookup(doc, q)
  {
    var p := Address(op.path).value;
    PlaceFootprints(op);
    forall d: Json, r, e | d.Obj? && r in Places(op) && EditFootprint(r, e) <= Footprint(op) ensures Clear(d, r, e, q) {
      AvoidsIsApart(d, op, r, e, q);
      ApartIsClear(d, r, e, q);
    }
    match op
    case Add(_, v) => LookupPastUpdate(doc, p, Insert(v), q);
    case Remove(_) => LookupPastUpdate(doc, p, Delete, q);
    case Replace(_, v) => LookupPastUpdate(doc, p, Assign(v), q);
    case Test(_, v) =>
    case Copy(source, _) => LookupPastUpdate(doc, p, Insert(Lookup(doc, Address(source).value).value), q);
    case Move(source, _) =>
      var from := Address(source).value;
      LookupPastUpdate(doc, from, Delete, q);
      LookupPastUpdate(Update(doc, from, Delete).value, p, Insert(Lookup(doc, from).value), q);
  }

  /** An operation leaves the shape of the container around a place it avoids. */
  lemma OperationKeepsShape(doc: Json, op: Operation, q: Tokens)
    requires doc.Obj? && q != [] && Addressable(op) && Avoids(Footprint(op), q)
    requires Apply(doc, op).Some?
    ensures Shape(Lookup(Apply(doc, op).value, Front(q))) == Shape(Lookup(doc, Front(q)))
  {
    var p := Address(op.path).value;
    PlaceFootprints(op);
    forall d: Json, r, e | d.Obj? && r in Places(op) && EditFootprint(r, e) <= Footprint(op) ensures Apart(d, r, e, q) {
      AvoidsIsApart(d, op, r, e, q);
    }
    match op
    case Add(_, v) => ShapeKept(doc, p, Insert(v), q);
    case Remove(_) => ShapeKept(doc, p, Delete, q);
    case Replace(_, v) => ShapeKept(doc, p, Assign(v), q);
    case Test(_, v) =>
    case Copy(source, _) => ShapeKept(doc, p, Insert(Lookup(doc, Address(source).value).value), q);
    case Move(source, _) =>
      var from := Address(source).value;
      ShapeKept(doc, from, Delete, q);
      ShapeKept(Update(doc, from, Delete).value, p, Insert(Lookup(doc, from).value), q);
  }

  // ---------------------------------------------------------------------------------------------
  // Exchanging operations.

  function Target(key: string): Option<nat> {
    if key == "-" then None else ParseIndex(key)
  }

  /** The move takes an element of an array to another place in it. */
  predicate MovesInside(doc: Json, from: Tokens, p: Tokens)
    requires from != [] && p != []
  {
    Front(from) == Front(p) && Lookup(doc, Front(p)).Some? && Lookup(doc, Front(p)).value.Arr?
  }

  /** The operation, made on this document, neither names `q` nor disturbs an element that `q` leads through. */
  predicate Leaves(doc: Json, done: Operation, q: Tokens)
    requires Addressable(done)
  {
    var p := Address(done.path).value;
    match done
    case Add(_, v) => Clear(doc, p, Insert(v), q)
    case Remove(_) => Clear(doc, p, Delete, q)
    case Replace(_, v) => Clear(doc, p, Assign(v), q)
    case Test(_, _) => true
    case Copy(source, _) =>
      Lookup(doc, Address(source).value).Some? ==> Clear(doc, p, Insert(Lookup(doc, Address(source).value).value), q)
    case Move(source, _) =>
      var from := Address(source).value;
      if MovesInside(doc, from, p) then Clear(doc, from, Reorder(Target(Last(p))), q)
      else
        && Clear(doc, from, Delete, q)
        && (Lookup(doc, from).Some? && Update(doc, from, Delete).Some? ==>
              Clear(Update(doc, from, Delete).value, p, Insert(Lookup(doc, from).value), q))
  }

  /** Exchanging two operations: neither decides whether the other succeeds, and the order does not matter. */
  predicate Exchange(doc: Json, op: Operation, done: Operation)
    requires Apply(doc, done).Some?
  {
    var after := Apply(doc, done).value;
    && (Apply(after, op).Some? <==> Apply(doc, op).Some?)
    && (Apply(doc, op).Some? ==> Apply(Apply(doc, op).value, done) == Apply(after, op))
  }

  /** Removing and inserting again inside one array is one reordering. */
  lemma {:induction false} MoveIsReorder(doc: Json, from: Tokens, p: Tokens)
    requires from != [] && p != [] && MovesInside(doc, from, p)
    requires Last(p) == "-" || ParseIndex(Last(p)).Some?
    ensures MoveMember(doc, from, p) == Update(doc, from, Reorder(Target(Last(p))))
    decreases |p|
  {
    if |p| == 1 {
      MoveInArray(doc, from, p);
    } else {
      TailParts(p);
      TailParts(from);
      var child := Child(doc, p[0]).value;
      MoveIsReorder(child, from[1..], p[1..]);
      MoveInChild(doc, from, p);
    }
  }

  lemma TopUpdate(doc: Json, p: Tokens, e: Edit)
    requires |p| == 1
    ensures Update(doc, p, e) == EditMember(doc, p[0], e) && Lookup(doc, p) == Child(doc, p[0])
  {
    assert p[1..] == [];
  }

  lemma DeepUpdate(doc: Json, p: Tokens, e: Edit)
    requires |p| >= 2 && Child(doc, p[0]).Some?
    ensures var edited := Update(Child(doc, p[0]).value, p[1..], e);
            Update(doc, p, e) == if edited.None? then None else EditMember(doc, p[0], Assign(edited.value))
    ensures Lookup(doc, p) == Lookup(Child(doc, p[0]).value, p[1..])
  {
  }

  lemma MoveInArray(doc: Json, from: Tokens, p: Tokens)
    requires |from| == 1 && |p| == 1 && doc.Arr? && (p[0] == "-" || ParseIndex(p[0]).Some?)
    ensures MoveMember(doc, from, p) == Update(doc, from, Reorder(Target(p[0])))
  {
    TopUpdate(doc, from, Delete);
    TopUpdate(doc, from, Reorder(Target(p[0])));
    if ParseIndex(from[0]).Some? && ParseIndex(from[0]).value < |doc.items| {
      var i := ParseIndex(from[0]).value;
      var v, rest := doc.items[i], Without(doc.items, i);
      TopUpdate(Arr(rest), p, Insert(v));
      assert rest + [v] == rest[..|rest|] + [v] + rest[|rest|..];
    }
  }

  lemma AssignSome(doc: Json, key: string, v: Json)
    requires Child(doc, key).Some?
    ensures EditMember(doc, key, Assign(v)).Some?
  {
  }

  lemma MoveInChild(doc: Json, from: Tokens, p: Tokens)
    requires |from| >= 2 && |p| >= 2 && from[0] == p[0] && Child(doc, p[0]).Some? && !(from < p)
    requires MoveMember(Child(doc, p[0]).value, from[1..], p[1..]) ==
             Update(Child(doc, p[0]).value, from[1..], Reorder(Target(Last(p))))
    ensures MoveMember(doc, from, p) == Update(doc, from, Reorder(Target(Last(p))))
  {
    var k, child := p[0], Child(doc, p[0]).value;
    assert !(from[1..] < p[1..]) by {
      assert from == [from[0]] + from[1..] && p == [p[0]] + p[1..];
    }
    DeepUpdate(doc, from, Reorder(Target(Last(p))));
    DeepUpdate(doc, from, Delete);
    if Lookup(child, from[1..]).Some? && Update(child, from[1..], Delete).Some? {
      var v, without := Lookup(child, from[1..]).value, Update(child, from[1..], Delete).value;
      AssignSome(doc, k, without);
      AssignedChild(doc, k, without);
      var shorter := EditMember(doc, k, Assign(without)).value;
      DeepUpdate(shorter, p, Insert(v));
      if Update(without, p[1..], Insert(v)).Some? {
        ReassignedMember(doc, k, without, Update(without, p[1..], Insert(v)).value);
      }
    }
  }

  lemma MoveExchanges(doc: Json, op: Operation, done: Operation)
    requires doc.Obj? && Addressable(op) && Addressable(done) && done.Move? && Apply(doc, done).Some?
    requires forall r :: r in Places(done) ==> Avoids(Footprint(op), r)
    requires !MovesInside(doc, Address(done.from).value, Address(done.path).value)
    requires forall q :: q in Places(op) ==> Leaves(doc, done, q)
    ensures Exchange(doc, op, done)
  {
    var p, from := Address(done.path).value, Address(done.from).value;
    var v, without := Lookup(doc, from).value, Update(doc, from, Delete).value;
    assert forall q :: q in Places(op) ==> Leaves(doc, done, q) && Clear(doc, from, Delete, q) && Clear(without, p, Insert(v), q);
    EditPast(doc, from, Delete, op);
    EditPast(without, p, Insert(v), op);
    if Apply(doc, op).Some? {
      LookupPastOperation(doc, op, from);
      OperationKeepsShape(doc, op, p);
    }
  }

  lemma ReorderExchanges(doc: Json, op: Operation, done: Operation)
    requires doc.Obj? && Addressable(op) && Addressable(done) && done.Move? && Apply(doc, done).Some?
    requires forall r :: r in Places(done) ==> Avoids(Footprint(op), r)
    requires MovesInside(doc, Address(done.from).value, Address(done.path).value)
    requires forall q :: q in Places(op) ==> Leaves(doc, done, q)
    ensures Exchange(doc, op, done)
  {
    var p, from := Address(done.path).value, Address(done.from).value;
    MovedIntoArray(doc, from, p);
    MoveIsReorder(doc, from, p);
    var reorder := Reorder(Target(Last(p)));
    assert forall q :: q in Places(op) ==> Leaves(doc, done, q) && Clear(doc, from, reorder, q);
    EditPast(doc, from, reorder, op);
    if Apply(doc, op).Some? {
      OperationKeepsShape(doc, op, p);
      MoveIsReorder(Apply(doc, op).value, from, p);
    }
  }

  /** The key under which something was inserted into an array. */
  lemma {:induction false} InsertedIntoArray(doc: Json, p: Tokens, v: Json)
    requires p != [] && Update(doc, p, Insert(v)).Some? && Lookup(doc, Front(p)).Some? && Lookup(doc, Front(p)).value.Arr?
    ensures Last(p) == "-" || ParseIndex(Last(p)).Some?
    decreases |p|
  {
    if |p| >= 2 {
      TailParts(p);
      InsertedIntoArray(Child(doc, p[0]).value, p[1..], v);
    }
  }

  lemma MovedIntoArray(doc: Json, from: Tokens, p: Tokens)
    requires from != [] && p != [] && MovesInside(doc, from, p) && MoveMember(doc, from, p).Some?
    ensures Last(p) == "-" || ParseIndex(Last(p)).Some?
  {
    var without := Update(doc, from, Delete).value;
    DeletedInside(doc, from);
    InsertedIntoArray(without, p, Lookup(doc, from).value);
  }

  lemma {:induction false} DeletedInside(doc: Json, from: Tokens)
    requires from != [] && Update(doc, from, Delete).Some? && Lookup(doc, Front(from)).Some? && Lookup(doc, Front(from)).value.Arr?
    ensures var after := Lookup(Update(doc, from, Delete).value, Front(from));
            after.Some? && after.value.Arr?
    decreases |from|
  {
    if |from| >= 2 {
      TailParts(from);
      var child := Child(doc, from[0]).value;
      DeletedInside(child, from[1..]);
      AssignedChild(doc, from[0], Update(child, from[1..], Delete).value);
    } else {
      assert Front(from) == [];
    }
  }

  /** The exchange law in full: the operation avoids what the one already made names, and that one leaves alone what the
      operation names. */
  lemma OperationsExchange(doc: Json, op: Operation, done: Operation)
    requires doc.Obj? && Addressable(op) && Addressable(done) && !done.Test? && Apply(doc, done).Some?
    requires forall r :: r in Places(done) ==> Avoids(Footprint(op), r)
    requires forall q :: q in Places(op) ==> Leaves(doc, done, q)
    ensures Exchange(doc, op, done)
  {
    var p := Address(done.path).value;
    match done
    case Add(_, v) =>
      assert forall q :: q in Places(op) ==> Leaves(doc, done, q) && Clear(doc, p, Insert(v), q);
      EditPast(doc, p, Insert(v), op);
    case Remove(_) =>
      assert forall q :: q in Places(op) ==> Leaves(doc, done, q) && Clear(doc, p, Delete, q);
      EditPast(doc, p, Delete, op);
    case Replace(_, v) =>
      assert forall q :: q in Places(op) ==> Leaves(doc, done, q) && Clear(doc, p, Assign(v), q);
      EditPast(doc, p, Assign(v), op);
    case Copy(source, _) =>
      var from := Address(source).value;
      var v := Lookup(doc, from).value;
      assert forall q :: q in Places(op) ==> Leaves(doc, done, q) && Clear(doc, p, Insert(v), q);
      EditPast(doc, p, Insert(v), op);
      if Apply(doc, op).Some? {
        LookupPastOperation(doc, op, from);
      }
    case Move(source, _) =>
      if MovesInside(doc, Address(source).value, p) {
        ReorderExchanges(doc, op, done);
      } else {
        MoveExchanges(doc, op, done);
      }
  }

  /** Disjoint footprints keep every array apart, whatever the document. */
  lemma OperationsCommute(doc: Json, op: Operation, done: Operation)
    requires doc.Obj? && Addressable(op) && Addressable(done) && !done.Test?
    requires Disjoint(Footprint(op), Footprint(done))
    requires Apply(doc, done).Some?
    ensures Exchange(doc, op, done)
  {
    PlaceFootprints(op);
    PlaceFootprints(done);
    DisjointBothWays(Footprint(op), Footprint(done));
    forall q | q in Places(op) ensures Leaves(doc, done, q) {
      DisjointLeaves(doc, done, Footprint(op), q);
    }
    OperationsExchange(doc, op, done);
  }

  lemma DisjointLeaves(doc: Json, done: Operation, others: set<Tokens>, q: Tokens)
    requires doc.Obj? && Addressable(done) && Disjoint(Footprint(done), others) && q in others
    ensures Leaves(doc, done, q)
  {
    PlaceFootprints(done);
    forall d: Json, r, e | d.Obj? && r in Places(done) && EditFootprint(r, e) <= Footprint(done) ensures Clear(d, r, e, q) {
      DisjointIsApart(d, r, e, others, q);
    }
    if done.Move? && Lookup(doc, Address(done.from).value).Some? && Update(doc, Address(done.from).value, Delete).Some? {
      assert Update(doc, Address(done.from).value, Delete).value.Obj?;
    }
  }

  /** The operations that change the document. */
  function Changes(ops: seq<Operation>): seq<Operation>
    decreases |ops|
  {
    if ops == [] then []
    else (if ops[0].Test? then [] else [ops[0]]) + Changes(ops[1..])
  }

  lemma {:induction false} ChangesHaveTheEffect(doc: Json, ops: seq<Operation>)
    requires ApplyAll(doc, ops).Some?
    ensures ApplyAll(doc, Changes(ops)) == ApplyAll(doc, ops)
    decreases |ops|
  {
    if ops != [] {
      var next := Apply(doc, ops[0]).value;
      ChangesHaveTheEffect(next, ops[1..]);
      if ops[0].Test? {
        assert next == doc && Changes(ops) == Changes(ops[1..]);
      } else {
        assert Changes(ops) == [ops[0]] + Changes(ops[1..]);
      }
    }
  }

  lemma {:induction false} PatchKeepsObject(doc: Json, ops: seq<Operation>)
    requires doc.Obj? && ApplyAll(doc, ops).Some?
    ensures ApplyAll(doc, ops).value.Obj?
    decreases |ops|
  {
    if ops != [] {
      RootStaysObject(doc, ops[0]);
      PatchKeepsObject(Apply(doc, ops[0]).value, ops[1..]);
    }
  }
}
