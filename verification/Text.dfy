/** String primitives of the pointer codec (`split`, `join`, left-to-right `replaceAll`) and
    the order in which strings compare. */
module Text {

  /** Splits at every occurrence of a separator character. */
  function Split(s: string, c: char): (parts: seq<string>)
    ensures |parts| >= 1
  {
    if s == "" then [""]
    else if s[0] == c then [""] + Split(s[1..], c)
    else
      var rest := Split(s[1..], c);
      [[s[0]] + rest[0]] + rest[1..]
  }

  function Join(parts: seq<string>, c: char): string {
    if parts == [] then ""
    else if |parts| == 1 then parts[0]
    else parts[0] + [c] + Join(parts[1..], c)
  }

  /** Left-to-right, non-overlapping replacement; the inserted text is never rescanned. */
  function ReplaceAll(s: string, pattern: string, replacement: string): string
    requires pattern != ""
  {
    if s == "" then ""
    else if pattern <= s then replacement + ReplaceAll(s[|pattern|..], pattern, replacement)
    else [s[0]] + ReplaceAll(s[1..], pattern, replacement)
  }

  lemma ReplaceHere(pattern: string, rest: string, replacement: string)
    requires pattern != ""
    ensures ReplaceAll(pattern + rest, pattern, replacement) == replacement + ReplaceAll(rest, pattern, replacement)
  {
    assert (pattern + rest)[|pattern|..] == rest;
  }

  lemma ReplaceLater(c: char, rest: string, pattern: string, replacement: string)
    requires pattern != "" && (c != pattern[0] || (|pattern| > 1 && (rest == "" || rest[0] != pattern[1])))
    ensures ReplaceAll([c] + rest, pattern, replacement) == [c] + ReplaceAll(rest, pattern, replacement)
  {
    var s := [c] + rest;
    assert s[1..] == rest && s[0] == c && (rest != "" ==> s[1] == rest[0]);
  }

  /** No part of a split contains the separator, and joining the parts restores the text. */
  lemma {:induction false} SplitThenJoin(s: string, c: char)
    ensures Join(Split(s, c), c) == s
    ensures forall k :: 0 <= k < |Split(s, c)| ==> c !in Split(s, c)[k]
  {
    if s != "" {
      SplitThenJoin(s[1..], c);
      var rest := Split(s[1..], c);
      if s[0] == c {
        assert Split(s, c) == [""] + rest;
        assert Join([""] + rest, c) == "" + [c] + Join(rest, c);
      } else {
        var parts := [[s[0]] + rest[0]] + rest[1..];
        assert Split(s, c) == parts;
        assert parts[1..] == rest[1..];
        if |rest| > 1 {
          assert Join(parts, c) == [s[0]] + rest[0] + [c] + Join(rest[1..], c);
          assert Join(rest, c) == rest[0] + [c] + Join(rest[1..], c);
        }
      }
    }
  }

  /** Splitting a join of separator-free parts gives the parts back. */
  lemma {:induction false} JoinThenSplit(parts: seq<string>, c: char)
    requires |parts| >= 1
    requires forall k :: 0 <= k < |parts| ==> c !in parts[k]
    ensures Split(Join(parts, c), c) == parts
    decreases |parts|, if |parts| == 0 then 0 else |parts[0]|
  {
    var s := Join(parts, c);
    if parts[0] != "" {
      var shorter := [parts[0][1..]] + parts[1..];
      JoinThenSplit(shorter, c);
      assert shorter[1..] == parts[1..];
      assert s[1..] == Join(shorter, c);
      assert s[0] == parts[0][0] && s[0] in parts[0];
      assert [s[0]] + shorter[0] == parts[0];
    } else if |parts| > 1 {
      JoinThenSplit(parts[1..], c);
      assert s == [c] + Join(parts[1..], c);
      assert s[1..] == Join(parts[1..], c);
      assert [""] + parts[1..] == parts;
    }
  }

  /** The order in which strings compare, character by character. */
  predicate StringLess(a: string, b: string) {
    b != "" && (a == "" || a[0] < b[0] || (a[0] == b[0] && StringLess(a[1..], b[1..])))
  }

  /** After prefixes of one length, the prefixes decide unless they are equal. */
  lemma {:induction false} PrefixOrder(a: string, b: string, c: string, d: string)
    requires |a| == |b|
    ensures StringLess(a + c, b + d) <==> StringLess(a, b) || (a == b && StringLess(c, d))
  {
    if a == "" {
      assert a + c == c && b + d == d;
    } else {
      PrefixOrder(a[1..], b[1..], c, d);
      assert (a + c)[0] == a[0] && (a + c)[1..] == a[1..] + c;
      assert (b + d)[0] == b[0] && (b + d)[1..] == b[1..] + d;
      assert a == b <==> a[0] == b[0] && a[1..] == b[1..];
    }
  }

  lemma {:induction false} StringOrderIsTotal(a: string, b: string)
    ensures StringLess(a, b) || a == b || StringLess(b, a)
    ensures !(StringLess(a, b) && StringLess(b, a)) && !StringLess(a, a)
  {
    if a != "" {
      if b != "" {
        StringOrderIsTotal(a[1..], b[1..]);
        assert a == b <==> a[0] == b[0] && a[1..] == b[1..];
      }
      StringIsNotLess(a);
    }
  }

  lemma {:induction false} StringIsNotLess(a: string)
    ensures !StringLess(a, a)
  {
    if a != "" {
      StringIsNotLess(a[1..]);
    }
  }

  lemma {:induction false} StringOrderIsTransitive(a: string, b: string, c: string)
    requires StringLess(a, b) && StringLess(b, c)
    ensures StringLess(a, c)
  {
    if a != "" && a[0] == b[0] && b[0] == c[0] {
      StringOrderIsTransitive(a[1..], b[1..], c[1..]);
    }
  }
}
