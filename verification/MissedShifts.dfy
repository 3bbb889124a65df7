/** Which operations conflict detection misses, told from the operation alone: the first element that it shifts and does not
    name decides, and whether a pointer to that element is short enough. */
module MissedShifts {
  import opened Wrappers
  import opened Text
  import opened Decimal
  import opened Pointer
  import opened JsonPatch
  import opened CollaborationPatch
  import opened Conflict
  import opened ArrayShifts
  import opened SiblingPointers
  import opened DetectionLimits

  // ---------------------------------------------------------------------------------------------
  // The test.

  /** The first index, counted from `least`, that neither of the paths goes through. */
  function Spared(place: Tokens, least: nat, own: Tokens, other: Tokens): nat {
    if IndexBelow(place, own) != Some(least) && IndexBelow(place, other) != Some(least) then least
    else if IndexBelow(place, own) != Some(least + 1) && IndexBelow(place, other) != Some(least + 1) then least + 1
    else least + 2
  }

  /** There is a pointer to the first spared element, and it passes beside the paths. */
  predicate Reachable(least: nat, own: Tokens, other: Tokens)
    requires own != []
  {
    && !(other <= Front(own))
    && |EncodePointer(Front(own) + [Numeral(Spared(Front(own), least, own, other))])| <= MAX_POINTER_LENGTH
  }

  /** The least index whose element an insertion of what was at `from` shifts. */
  function LeastShifted(from: Tokens, p: Tokens): Option<nat>
    requires p != []
  {
    if Last(p) != "-" then ParseIndex(Last(p))
    else if IndexBelow(Front(p), from).Some? then Some(IndexBelow(Front(p), from).value + 1)
    else Some(0)
  }

  predicate InsertUnseen(from: Tokens, p: Tokens)
    requires p != []
  {
    |p| >= 2 && LeastShifted(from, p).Some? && Reachable(LeastShifted(from, p).value, p, from)
  }

  predicate DeleteUnseen(p: Tokens, other: Tokens)
    requires p != []
  {
    |p| >= 2 && ParseIndex(Last(p)).Some? && Reachable(ParseIndex(Last(p)).value, p, other)
  }

  /** A move inside one array shifts what lies between the two indexes, or everything behind the first. */
  predicate ReorderUnseen(from: Tokens, p: Tokens)
    requires from != [] && p != []
  {
    && |p| >= 2 && ParseIndex(Last(from)).Some?
    && var i := ParseIndex(Last(from)).value;
       if Last(p) == "-" then Reachable(i + 1, p, from)
       else
         && ParseIndex(Last(p)).Some?
         && (i > ParseIndex(Last(p)).value + 1 || i + 1 < ParseIndex(Last(p)).value)
  }

  predicate ShiftsUnseen(d: Operation)
    requires Addressable(d)
  {
    Applicable(d)
    && var p := Address(d.path).value;
       match d
       case Add(_, _) => InsertUnseen(p, p)
       case Remove(_) => DeleteUnseen(p, p)
       case Replace(_, _) => false
       case Test(_, _) => false
       case Copy(source, _) => AllowsArray(Front(p), Address(source).value) && InsertUnseen(Address(source).value, p)
       case Move(source, _) =>
         var from := Address(source).value;
         if Front(from) == Front(p) then ReorderUnseen(from, p)
         else
           || (AllowsArray(Front(p), from) && InsertUnseen(from, p))
           || (AllowsArray(Front(from), p) && DeleteUnseen(from, p))
  }

  // ---------------------------------------------------------------------------------------------
  // What passes has a spared element.

  lemma SiblingText(d: Operation, place: Tokens, x: nat, element: string)
    requires Sibling(d, place, x, element)
    ensures element == EncodePointer(place + [Numeral(x)]) && |element| <= MAX_POINTER_LENGTH
  {
    EncodeDecodePointer(element);
  }

  lemma ShorterText(place: Tokens, x: nat, y: nat)
    requires place != [] && x <= y
    ensures |EncodePointer(place + [Numeral(x)])| <= |EncodePointer(place + [Numeral(y)])|
  {
    PointerLength(place, Numeral(x));
    PointerLength(place, Numeral(y));
    NumeralText(x);
    NumeralText(y);
    LargerNumeral(x, y);
  }

  lemma SparedIsLeast(place: Tokens, least: nat, own: Tokens, other: Tokens, x: nat)
    requires least <= x && IndexBelow(place, own) != Some(x) && IndexBelow(place, other) != Some(x)
    ensures Spared(place, least, own, other) <= x
  {
  }

  lemma SiblingIsReachable(d: Operation, x: nat, element: string, least: nat, own: Tokens, other: Tokens)
    requires own != [] && Front(own) != [] && Sibling(d, Front(own), x, element) && least <= x && !(other <= Front(own))
    requires IndexBelow(Front(own), own) != Some(x) && IndexBelow(Front(own), other) != Some(x)
    ensures Reachable(least, own, other)
  {
    SiblingText(d, Front(own), x, element);
    SparedIsLeast(Front(own), least, own, other, x);
    ShorterText(Front(own), Spared(Front(own), least, own, other), x);
  }

  lemma OwnIndex(own: Tokens)
    requires own != []
    ensures IndexBelow(Front(own), own) == ParseIndex(Last(own))
  {
    assert own[..|own| - 1] == Front(own);
  }

  /** The sides of insertion and deletion. */
  lemma PassedIsReachable(d: Operation, pointer: string, own: Tokens, other: Tokens, least: nat)
    requires PolicyApproved(d) && Addressable(d) && Applicable(d) && LetsPass(d, pointer)
    requires own in Places(d) && other in Places(d) && Places(d) <= {own, other} && |own| >= 2
    requires IndexBelow(Front(own), DecodePointer(pointer).value).Some?
    requires var x := IndexBelow(Front(own), DecodePointer(pointer).value).value;
             least <= x && (ParseIndex(Last(own)).Some? ==> ParseIndex(Last(own)).value <= x)
    ensures Reachable(least, own, other)
  {
    var x, element := InsertSide(d, pointer, Front(own), own, other);
    OwnIndex(own);
    SiblingIsReachable(d, x, element, least, own, other);
  }

  lemma ReorderIsReachable(d: Operation, pointer: string)
    requires PolicyApproved(d) && Addressable(d) && d.Move? && Applicable(d) && LetsPass(d, pointer)
    requires var p, from := Address(d.path).value, Address(d.from).value;
             Front(from) == Front(p) && ReorderShifts(from, p, DecodePointer(pointer).value)
    ensures ReorderUnseen(Address(d.from).value, Address(d.path).value)
  {
    var p, from := Address(d.path).value, Address(d.from).value;
    var x, element := ReorderSide(d, pointer);
    OwnIndex(p);
    OwnIndex(from);
    if Last(p) == "-" {
      SiblingIsReachable(d, x, element, ParseIndex(Last(from)).value + 1, p, from);
    }
  }

  lemma MissedIsUnseen(d: Operation, pointer: string)
    requires PolicyApproved(d) && Addressable(d) && LetsPass(d, pointer) && Shifts(d, DecodePointer(pointer).value)
    ensures ShiftsUnseen(d)
  {
    var p, q := Address(d.path).value, DecodePointer(pointer).value;
    if d.Move? && Front(Address(d.from).value) == Front(p) {
      ReorderIsReachable(d, pointer);
    } else if d.Remove? {
      PassedIsReachable(d, pointer, p, p, ParseIndex(Last(p)).value);
    } else if d.Add? {
      OwnIndex(p);
      PassedIsReachable(d, pointer, p, p, LeastShifted(p, p).value);
    } else {
      var from := Address(d.from).value;
      if FetchShifts(from, p, q) {
        PassedIsReachable(d, pointer, p, from, LeastShifted(from, p).value);
      } else {
        PassedIsReachable(d, pointer, from, p, ParseIndex(Last(from)).value);
      }
    }
  }

  // ---------------------------------------------------------------------------------------------
  // A spared element has a pointer that passes.

  lemma SparedIsSpared(place: Tokens, least: nat, own: Tokens, other: Tokens)
    ensures var x := Spared(place, least, own, other);
            x >= least && IndexBelow(place, own) != Some(x) && IndexBelow(place, other) != Some(x)
  {
  }

  /** The element of the array that `own` ends in. */
  lemma ElementIsPassed(d: Operation, own: Tokens, x: nat)
    requires Addressable(d) && own in Places(d) && |own| >= 2
    requires |EncodePointer(Front(own) + [Numeral(x)])| <= MAX_POINTER_LENGTH
    requires forall r :: r in Places(d) ==> !(r <= Front(own)) && IndexBelow(Front(own), r) != Some(x)
    ensures Sibling(d, Front(own), x, EncodePointer(Front(own) + [Numeral(x)]))
  {
    var tokens := Front(own) + [Numeral(x)];
    var text := PlacesHaveText(d, own);
    EncodeDecodePointer(text);
    DecodeEncodePointer(tokens);
    forall p | p in OperationPaths(d) ensures !PointersOverlap(EncodePointer(tokens), p) {
      var r := Address(p).value;
      assert r in Places(d);
      OverlapIsPrefix(EncodePointer(tokens), p);
      if Overlap(tokens, r) {
        OverlapsElement(Front(own), x, r);
      }
    }
  }

  lemma ReachableIsPassed(d: Operation, own: Tokens, other: Tokens, least: nat) returns (x: nat, pointer: string)
    requires Addressable(d) && Places(d) == {own, other} && |own| >= 2 && Reachable(least, own, other)
    ensures x == Spared(Front(own), least, own, other) && Sibling(d, Front(own), x, pointer)
    ensures Below(Front(own), DecodePointer(pointer).value) && IndexBelow(Front(own), DecodePointer(pointer).value) == Some(x)
  {
    x := Spared(Front(own), least, own, other);
    SparedIsSpared(Front(own), least, own, other);
    pointer := EncodePointer(Front(own) + [Numeral(x)]);
    ElementIsPassed(d, own, x);
    SiblingBelow(Front(own), x);
  }

  lemma UnseenReorderIsMissed(d: Operation)
    requires Addressable(d) && d.Move? && Front(Address(d.from).value) == Front(Address(d.path).value) && ShiftsUnseen(d)
    ensures Misses(d)
  {
    var p, from := Address(d.path).value, Address(d.from).value;
    var i := ParseIndex(Last(from)).value;
    OwnIndex(p);
    OwnIndex(from);
    assert |from| == |p|;
    if Last(p) == "-" {
      var x, pointer := ReachableIsPassed(d, p, from, i + 1);
      assert Shifts(d, DecodePointer(pointer).value);
    } else {
      var j := ParseIndex(Last(p)).value;
      var x := if i < j then i + 1 else j + 1;
      ElementInside(d, if i < j then p else from, x);
      ElementIsPassed(d, p, x);
      SiblingBelow(Front(p), x);
      assert Shifts(d, Front(p) + [Numeral(x)]);
    }
  }

  /** Before an element that the operation names there is room for the earlier ones. */
  lemma ElementInside(d: Operation, high: Tokens, x: nat)
    requires Addressable(d) && high in Places(d) && |high| >= 2 && ParseIndex(Last(high)).Some? && x <= ParseIndex(Last(high)).value
    ensures |EncodePointer(Front(high) + [Numeral(x)])| <= MAX_POINTER_LENGTH
  {
    var text := PlacesHaveText(d, high);
    ParsedIsNumeral(Last(high));
    assert high == Front(high) + [Numeral(ParseIndex(Last(high)).value)];
    EncodeDecodePointer(text);
    ShorterText(Front(high), x, ParseIndex(Last(high)).value);
  }

  lemma UnseenIsMissed(d: Operation)
    requires Addressable(d) && ShiftsUnseen(d)
    ensures Misses(d)
  {
    var p := Address(d.path).value;
    OwnIndex(p);
    if d.Move? && Front(Address(d.from).value) == Front(p) {
      UnseenReorderIsMissed(d);
    } else if d.Remove? {
      var x, pointer := ReachableIsPassed(d, p, p, ParseIndex(Last(p)).value);
      assert Shifts(d, DecodePointer(pointer).value);
    } else if d.Add? {
      var x, pointer := ReachableIsPassed(d, p, p, LeastShifted(p, p).value);
      assert Shifts(d, DecodePointer(pointer).value);
    } else {
      var from := Address(d.from).value;
      OwnIndex(from);
      if AllowsArray(Front(p), from) && InsertUnseen(from, p) {
        var x, pointer := ReachableIsPassed(d, p, from, LeastShifted(from, p).value);
        assert FetchShifts(from, p, DecodePointer(pointer).value);
        assert Shifts(d, DecodePointer(pointer).value);
      } else {
        var x, pointer := ReachableIsPassed(d, from, p, ParseIndex(Last(from)).value);
        assert DeleteShifts(from, DecodePointer(pointer).value);
        assert Shifts(d, DecodePointer(pointer).value);
      }
    }
  }

  /** The test decides what detection misses. */
  lemma MissesMeaning(d: Operation)
    requires PolicyApproved(d) && Addressable(d)
    ensures Misses(d) <==> ShiftsUnseen(d)
  {
    if pointer :| LetsPass(d, pointer) && Shifts(d, DecodePointer(pointer).value) {
      MissedIsUnseen(d, pointer);
    } else if ShiftsUnseen(d) {
      UnseenIsMissed(d);
    }
  }

  // ---------------------------------------------------------------------------------------------
  // A witness.

  lemma ElementText(member: string, x: nat)
    requires '~' !in member && '/' !in member && |member| + |Numeral(x)| + 2 <= MAX_POINTER_LENGTH
    ensures DecodePointer("/" + member + "/" + Numeral(x)) == Some([member, Numeral(x)])
  {
    var tokens := [member, Numeral(x)];
    PlainToken(member);
    NumeralText(x);
    assert EncodeEach(tokens) == tokens;
    assert tokens[1..] == [Numeral(x)];
    assert Join(tokens, '/') == member + "/" + Numeral(x);
    assert EncodePointer(tokens) == "/" + member + "/" + Numeral(x);
    DecodeEncodePointer(tokens);
  }

  lemma RemovalIsApproved(d: Operation, tokens: Tokens, x: nat)
    requires d.Remove? && Address(d.path) == Some(tokens) && |tokens| == 2 && tokens[0] != "revision" && tokens[1] == Numeral(x)
    ensures PolicyApproved(d) && Addressable(d) && Applicable(d)
  {
    assert OperationPaths(d) == [d.path];
    assert tokens == [tokens[0]] + [Numeral(x)];
    NoIdentity(d.path, [tokens[0]], x);
  }

  lemma NextPasses(d: Operation, next: string, member: string, x: nat)
    requires d.Remove? && DecodePointer(d.path) == Some([member, Numeral(x)]) && DecodePointer(next) == Some([member, Numeral(x + 1)])
    ensures LetsPass(d, next)
  {
    var own, other := [member, Numeral(x)], [member, Numeral(x + 1)];
    NumeralParses(x);
    NumeralParses(x + 1);
    assert OperationPaths(d) == [d.path];
    OverlapIsPrefix(next, d.path);
    assert own != other && other[..2] == other && own[..2] == own;
  }

  lemma NextIsShifted(member: string, x: nat)
    ensures DeleteShifts([member, Numeral(x)], [member, Numeral(x + 1)])
  {
    NumeralParses(x);
    NumeralParses(x + 1);
    assert [member, Numeral(x + 1)][..1] == [member] && [member, Numeral(x)][..1] == [member];
  }

  /** The removal of an element is missed by every proposal for the next one: the committed operation passes the policy, the
      pointer passes beside it, and some approved proposal that is not reported goes wrong on some document. */
  lemma RemovalIsMissed(member: string, x: nat) returns (op: Operation)
    requires '~' !in member && '/' !in member && member != "revision" && |member| + |Numeral(x + 1)| + 2 <= MAX_POINTER_LENGTH
    ensures var d := Remove("/" + member + "/" + Numeral(x));
            && PolicyApproved(d) && Addressable(d) && LetsPass(d, "/" + member + "/" + Numeral(x + 1)) && Misses(d)
            && PolicyApproved(op) && ClearOf(op, ChangedPaths([d])) && !AlwaysRebases([op], d)
  {
    var d, next := Remove("/" + member + "/" + Numeral(x)), "/" + member + "/" + Numeral(x + 1);
    NextNumeral(x);
    ElementText(member, x);
    ElementText(member, x + 1);
    RemovalIsApproved(d, [member, Numeral(x)], x);
    NextPasses(d, next, member, x);
    NextIsShifted(member, x);
    op := ShiftIsMissed(d, next);
  }

  /** For instance: the first item is removed, and a proposal for the second is rebased onto the third. */
  lemma SecondItemIsMissed() returns (op: Operation)
    ensures Misses(Remove("/items/0")) && PolicyApproved(op) && ClearOf(op, ChangedPaths([Remove("/items/0")]))
    ensures !AlwaysRebases([op], Remove("/items/0"))
  {
    assert Numeral(0) == "0" && Numeral(1) == "1";
    assert "/" + "items" + "/" + Numeral(0) == "/items/0";
    op := RemovalIsMissed("items", 0);
  }
}
