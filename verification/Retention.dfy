/** A log that keeps only its newest entries, and readers that resume from a position in it. */
module Retention {

  /** What a bounded log still holds of everything appended to it. */
  function Kept<T>(history: seq<T>, capacity: nat): seq<T> {
    if |history| <= capacity then history else history[|history| - capacity..]
  }

  function Evicted<T>(history: seq<T>, capacity: nat): nat {
    |history| - |Kept(history, capacity)|
  }

  /** Appending and then dropping one entry over capacity is the bounded log of the longer history. */
  lemma KeptAppend<T>(history: seq<T>, capacity: nat, entry: T)
    ensures var grown := Kept(history, capacity) + [entry];
            Kept(history + [entry], capacity) == if |grown| > capacity then grown[1..] else grown
  {
    if |history| > capacity {
      var n := |history|;
      assert (history + [entry])[n + 1 - capacity..] == (history[n - capacity..] + [entry])[1..];
    } else if |history| == capacity {
      assert (history + [entry])[1..] == Kept(history + [entry], capacity);
    }
  }

  function Filter<T>(entries: seq<T>, mine: T -> bool): seq<T> {
    if entries == [] then []
    else (if mine(entries[0]) then [entries[0]] else []) + Filter(entries[1..], mine)
  }

  lemma {:induction false} FilterConcat<T>(a: seq<T>, b: seq<T>, mine: T -> bool)
    ensures Filter(a + b, mine) == Filter(a, mine) + Filter(b, mine)
  {
    if a == [] {
      assert a + b == b;
    } else {
      FilterConcat(a[1..], b, mine);
      assert (a + b)[1..] == a[1..] + b;
      Associative(if mine(a[0]) then [a[0]] else [], Filter(a[1..], mine), Filter(b, mine));
    }
  }

  lemma Associative<T>(a: seq<T>, b: seq<T>, c: seq<T>)
    ensures a + (b + c) == (a + b) + c
  {
  }

  lemma {:induction false} FilterSame<T>(entries: seq<T>, mine: T -> bool, other: T -> bool)
    requires forall k :: 0 <= k < |entries| ==> (mine(entries[k]) <==> other(entries[k]))
    ensures Filter(entries, mine) == Filter(entries, other)
  {
    if entries != [] {
      FilterSame(entries[1..], mine, other);
    }
  }

  lemma {:induction false} FilterNone<T>(entries: seq<T>, mine: T -> bool)
    requires forall k :: 0 <= k < |entries| ==> !mine(entries[k])
    ensures Filter(entries, mine) == []
  {
    if entries != [] {
      FilterNone(entries[1..], mine);
    }
  }

  /** Filtering what is kept by position and by owner gives the owner's entries after the position. */
  lemma FilterAfter<T>(history: seq<T>, capacity: nat, after: nat, mine: T -> bool, wanted: T -> bool)
    requires Evicted(history, capacity) <= after <= |history|
    requires forall k :: 0 <= k < |history| ==> (wanted(history[k]) <==> mine(history[k]) && k >= after)
    ensures Filter(Kept(history, capacity), wanted) == Filter(history[after..], mine)
  {
    var e := Evicted(history, capacity);
    assert Kept(history, capacity) == history[e..] == history[e..after] + history[after..];
    FilterConcat(history[e..after], history[after..], wanted);
    FilterNone(history[e..after], wanted);
    FilterSame(history[after..], wanted, mine);
  }
}
