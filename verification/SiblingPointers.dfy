/** Pointers to single array elements beside a pointer that detection lets pass. */
module SiblingPointers {
  import opened Wrappers
  import opened Decimal
  import opened Text
  import opened Pointer
  import opened JsonPatch
  import opened CollaborationPatch
  import opened ArrayShifts

  lemma ParsedIsNumeral(token: string)
    requires ParseIndex(token).Some?
    ensures token == Numeral(ParseIndex(token).value)
  {
    NumeralParses(ParseIndex(token).value);
    IndexTokens(token, Numeral(ParseIndex(token).value));
  }

  lemma NumeralText(n: nat)
    ensures EncodeToken(Numeral(n)) == Numeral(n)
  {
    ToNatNumeral(n);
    assert '~' !in Numeral(n) && '/' !in Numeral(n);
    PlainToken(Numeral(n));
  }

  // ---------------------------------------------------------------------------------------------
  // Lengths.

  lemma {:induction false} JoinLength(parts: seq<string>, last: string, c: char)
    requires parts != []
    ensures |Join(parts + [last], c)| == |Join(parts, c)| + 1 + |last|
  {
    if |parts| == 1 {
      assert (parts + [last])[1..] == [last];
    } else {
      assert (parts + [last])[1..] == parts[1..] + [last];
      JoinLength(parts[1..], last, c);
    }
  }

  lemma PointerLength(tokens: Tokens, last: string)
    requires tokens != []
    ensures |EncodePointer(tokens + [last])| == |EncodePointer(tokens)| + 1 + |EncodeToken(last)|
  {
    assert EncodeEach(tokens + [last]) == EncodeEach(tokens) + [EncodeToken(last)];
    JoinLength(EncodeEach(tokens), EncodeToken(last), '/');
  }

  /** Every non-empty prefix of a pointer's tokens has a pointer, shorter when something is left out. */
  lemma PrefixDecodes(pointer: string, n: nat)
    requires DecodePointer(pointer).Some? && 1 <= n <= |DecodePointer(pointer).value|
    ensures var tokens := DecodePointer(pointer).value;
            && DecodePointer(EncodePointer(tokens[..n])) == Some(tokens[..n])
            && (n < |tokens| ==> |EncodePointer(tokens[..n])| < |pointer|)
  {
    var tokens := DecodePointer(pointer).value;
    EncodeDecodePointer(pointer);
    assert tokens == tokens[..n] + tokens[n..];
    assert EncodeEach(tokens) == EncodeEach(tokens[..n]) + EncodeEach(tokens[n..]);
    JoinPrefix(EncodeEach(tokens[..n]), EncodeEach(tokens[n..]), '/');
    DecodeEncodePointer(tokens[..n]);
  }

  /** Below a pointer that goes on after an element there is room for the next element. */
  lemma NextSiblingDecodes(pointer: string, place: Tokens)
    requires DecodePointer(pointer).Some? && place != [] && Below(place, DecodePointer(pointer).value)
    requires |DecodePointer(pointer).value| >= |place| + 2 && IndexBelow(place, DecodePointer(pointer).value).Some?
    ensures var sibling := place + [Numeral(IndexBelow(place, DecodePointer(pointer).value).value + 1)];
            DecodePointer(EncodePointer(sibling)) == Some(sibling)
  {
    var tokens := DecodePointer(pointer).value;
    var x := IndexBelow(place, tokens).value;
    ParsedIsNumeral(tokens[|place|]);
    PrefixDecodes(pointer, |place| + 1);
    EncodeDecodePointer(pointer);
    assert tokens[..|place| + 1] == place + [Numeral(x)];
    PointerLength(place, Numeral(x));
    PointerLength(place, Numeral(x + 1));
    NumeralText(x);
    NumeralText(x + 1);
    NextNumeral(x);
    DecodeEncodePointer(place + [Numeral(x + 1)]);
  }

  // ---------------------------------------------------------------------------------------------
  // The pointer to the element itself, or to the next one.

  /** A pointer to one element that detection lets pass. */
  ghost predicate Sibling(d: Operation, place: Tokens, x: nat, pointer: string) {
    LetsPass(d, pointer) && DecodePointer(pointer) == Some(place + [Numeral(x)])
  }

  lemma SiblingBelow(place: Tokens, x: nat)
    ensures Below(place, place + [Numeral(x)]) && IndexBelow(place, place + [Numeral(x)]) == Some(x)
  {
    NumeralParses(x);
  }

  lemma PrefixOfPrefix(r: Tokens, q: Tokens, n: nat)
    requires n <= |q| && r <= q[..n]
    ensures r <= q
  {
    assert r == q[..n][..|r|] == q[..|r|];
  }

  /** What overlaps the element either stands above its array or leads through it. */
  lemma OverlapsElement(place: Tokens, x: nat, r: Tokens)
    requires Overlap(place + [Numeral(x)], r)
    ensures r <= place || IndexBelow(place, r) == Some(x)
  {
    var element := place + [Numeral(x)];
    NumeralParses(x);
    if element <= r {
      assert r[..|element|] == element && r[..|place|] == r[..|element|][..|place|];
      assert r[|place|] == r[..|element|][|place|];
    } else if |r| <= |place| {
      assert r == element[..|r|] == place[..|r|];
    }
  }

  lemma AboveIsAbove(place: Tokens, q: Tokens, r: Tokens)
    requires Below(place, q) && r <= place
    ensures r <= q
  {
    PrefixOfPrefix(r, q, |place|);
  }

  lemma ElementPasses(d: Operation, pointer: string, place: Tokens, x: nat)
    requires Addressable(d) && LetsPass(d, pointer) && Below(place, DecodePointer(pointer).value)
    requires DecodePointer(EncodePointer(place + [Numeral(x)])) == Some(place + [Numeral(x)])
    requires forall r :: r in Places(d) && IndexBelow(place, r) == Some(x) ==> !Overlap(place + [Numeral(x)], r)
    ensures Sibling(d, place, x, EncodePointer(place + [Numeral(x)]))
  {
    var element := EncodePointer(place + [Numeral(x)]);
    forall p | p in OperationPaths(d) ensures !PointersOverlap(element, p) {
      var r := Address(p).value;
      assert r in Places(d);
      OverlapIsPrefix(element, p);
      OverlapIsPrefix(pointer, p);
      if Overlap(place + [Numeral(x)], r) {
        OverlapsElement(place, x, r);
        if r <= place {
          AboveIsAbove(place, DecodePointer(pointer).value, r);
        }
        assert false;
      }
    }
  }

  /** A path that ends at the element stands above every path through it. */
  lemma EndsAtElement(place: Tokens, q: Tokens, r: Tokens)
    requires IndexBelow(place, q).Some? && IndexBelow(place, r) == IndexBelow(place, q)
    ensures |r| == |place| + 1 ==> r <= q
  {
    ParsedIsNumeral(q[|place|]);
    ParsedIsNumeral(r[|place|]);
    if |r| == |place| + 1 {
      assert r == q[..|place|] + [q[|place|]] == q[..|r|];
    }
  }

  /** Beside a pointer that passes there is a pointer that passes to an element of the array, the one led through or the
      next; only what the operation names deep inside the element stands in the way of the first. */
  lemma SomeSibling(d: Operation, pointer: string, place: Tokens) returns (x: nat, element: string)
    requires Addressable(d) && LetsPass(d, pointer) && place != [] && IndexBelow(place, DecodePointer(pointer).value).Some?
    requires var x0 := IndexBelow(place, DecodePointer(pointer).value).value;
             forall r, other :: r in Places(d) && other in Places(d) && IndexBelow(place, r) == Some(x0) ==>
                                  IndexBelow(place, other) != Some(x0 + 1)
    ensures Sibling(d, place, x, element)
    ensures var x0 := IndexBelow(place, DecodePointer(pointer).value).value;
            x == x0 || (x == x0 + 1 && exists r :: r in Places(d) && |r| >= |place| + 2 && IndexBelow(place, r) == Some(x0))
  {
    var q := DecodePointer(pointer).value;
    var x0 := IndexBelow(place, q).value;
    if r :| r in Places(d) && IndexBelow(place, r) == Some(x0) {
      var deep := PlacesHaveText(d, r);
      OverlapIsPrefix(pointer, deep);
      EndsAtElement(place, q, r);
      NextSiblingDecodes(deep, place);
      x := x0 + 1;
    } else {
      PrefixDecodes(pointer, |place| + 1);
      ParsedIsNumeral(q[|place|]);
      assert q[..|place| + 1] == place + [Numeral(x0)];
      x := x0;
    }
    element := EncodePointer(place + [Numeral(x)]);
    ElementPasses(d, pointer, place, x);
  }
}
