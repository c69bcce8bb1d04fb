/** The compressed map from native addresses to source positions. */
module SrcMaps {
  import opened SafeMap

  datatype Elem = Elem(from: nat, to: int)

  /**
   * Addresses never descend. Pushing demands this of the stored elements only: an address below one
   * that was dropped is accepted too, and such inputs are not ascending.
   */
  predicate Ascending(s: seq<Elem>) {
    forall i, j :: 0 <= i < j < |s| ==> s[i].from <= s[j].from
  }

  /** Index of the first element at or above an address: std::lower_bound on (from, INT32_MIN). */
  function LowerBound(s: seq<Elem>, from: nat): (i: nat)
    ensures i <= |s|
    ensures forall j :: 0 <= j < i ==> s[j].from < from
    ensures i < |s| ==> s[i].from >= from
  {
    if s == [] || s[0].from >= from then 0 else 1 + LowerBound(s[1..], from)
  }

  function Find(s: seq<Elem>, from: nat): Option<int> {
    var lb := LowerBound(s, from);
    if lb < |s| && s[lb].from == from then Some(s[lb].to)
    else if lb > 0 then Some(s[lb - 1].to)
    else None
  }

  /** What pushing elements one by one leaves stored. */
  function Compress(full: seq<Elem>): (c: seq<Elem>)
    ensures full == [] <==> c == []
    ensures full != [] ==> c[|c| - 1].to == full[|full| - 1].to
  {
    if full == [] then []
    else
      var e := full[|full| - 1];
      var c := Compress(full[..|full| - 1]);
      if c != [] && e.to == c[|c| - 1].to then c else c + [e]
  }

  class SrcMap {
    var elems: seq<Elem>
    ghost var pushed: seq<Elem>

    ghost predicate Valid()
      reads this
    {
      Ascending(elems) && elems == Compress(pushed)
    }

    constructor ()
      ensures Valid() && pushed == []
    {
      elems, pushed := [], [];
    }

    /** The insertion check compares with the last element stored, not the last one pushed. */
    method PushBack(elem: Elem)
      requires Valid() && (elems != [] ==> elem.from >= elems[|elems| - 1].from)
      modifies this
      ensures Valid() && pushed == old(pushed) + [elem]
    {
      pushed := pushed + [elem];
      assert pushed[..|pushed| - 1] == old(pushed);
      if elems != [] && elem.to == elems[|elems| - 1].to {
        return;
      }
      elems := elems + [elem];
    }
  }

  /** No two neighbours of the stored vector map to one value. */
  lemma {:induction false} CompressedIsMinimal(full: seq<Elem>)
    ensures forall i :: 0 < i < |Compress(full)| ==> Compress(full)[i - 1].to != Compress(full)[i].to
  {
    if full != [] {
      CompressedIsMinimal(full[..|full| - 1]);
    }
  }

  // ---------------------------------------------------------------- what compression keeps

  predicate Has(s: seq<Elem>, x: nat) {
    exists i :: 0 <= i < |s| && s[i].from == x
  }

  /** Lookup in a list with one more element at its end. */
  lemma FindSnoc(s: seq<Elem>, e: Elem, x: nat)
    requires Ascending(s + [e])
    ensures Find(s + [e], x) == if Has(s, x) || e.from > x then Find(s, x) else Some(e.to)
    ensures Has(s + [e], x) <==> Has(s, x) || e.from == x
  {
    var t := s + [e];
    var a, b := LowerBound(s, x), LowerBound(t, x);
    assert forall i :: 0 <= i < |s| ==> t[i] == s[i];
    assert t[|s|] == e;
    assert a == b || (a == |s| && b == |s| + 1);
    if Has(s, x) {
      var i :| 0 <= i < |s| && s[i].from == x;
      assert a <= i && s[a].from <= s[i].from;
    }
  }

  lemma FindPastEnd(s: seq<Elem>, x: nat)
    requires s != [] && forall i :: 0 <= i < |s| ==> s[i].from < x
    ensures Find(s, x) == Some(s[|s| - 1].to) && !Has(s, x)
  {
  }

  /** Stored elements are pushed ones, in order. */
  lemma {:induction false} CompressedAscends(full: seq<Elem>, bound: nat)
    requires Ascending(full) && forall i :: 0 <= i < |full| ==> full[i].from <= bound
    ensures Ascending(Compress(full))
    ensures forall i :: 0 <= i < |Compress(full)| ==> Compress(full)[i].from <= bound
  {
    if full != [] {
      var n := |full| - 1;
      CompressedAscends(full[..n], full[n].from);
    }
  }

  /** The element pushed as number `i` was ignored. */
  predicate Dropped(full: seq<Elem>, i: nat)
    requires i < |full|
  {
    i > 0 && full[i - 1].to == full[i].to
  }

  predicate FirstAt(s: seq<Elem>, x: nat, i: nat) {
    i < |s| && s[i].from == x && forall j :: 0 <= j < i ==> s[j].from != x
  }

  /** Several values were pushed for `x`, and the first of them was ignored. */
  ghost predicate Split(full: seq<Elem>, x: nat) {
    exists i: nat, j: nat ::
      FirstAt(full, x, i) && Dropped(full, i) && i < j < |full| && full[j].from == x && full[j].to != full[i].to
  }

  /** How the stored vector answers for `x`, by the fate of the first element pushed for it. */
  ghost predicate Answer(full: seq<Elem>, x: nat) {
    var c := Compress(full);
    && (!Has(full, x) ==> !Has(c, x) && Find(c, x) == Find(full, x))
    && (forall i: nat :: FirstAt(full, x, i) ==>
          && Find(full, x) == Some(full[i].to)
          && (!Dropped(full, i) ==> Has(c, x) && Find(c, x) == Find(full, x))
          && (Dropped(full, i) && !Split(full, x) ==> !Has(c, x) && Find(c, x) == Find(full, x))
          && (Split(full, x) ==> Has(c, x) && Find(c, x) != Find(full, x)))
  }

  lemma FirstAtUnique(s: seq<Elem>, x: nat, i: nat, j: nat)
    requires FirstAt(s, x, i) && FirstAt(s, x, j)
    ensures i == j
  {
  }

  /** Whether values split at `x` after one more push. */
  lemma SplitSnoc(prev: seq<Elem>, e: Elem, x: nat, i: nat)
    requires FirstAt(prev, x, i)
    ensures FirstAt(prev + [e], x, i) && (Dropped(prev + [e], i) <==> Dropped(prev, i))
    ensures Split(prev + [e], x) <==> Split(prev, x) || (Dropped(prev, i) && e.from == x && e.to != prev[i].to)
  {
    var full := prev + [e];
    assert forall k :: 0 <= k < |prev| ==> full[k] == prev[k];
    assert FirstAt(full, x, i);
    if Split(full, x) {
      var a: nat, b: nat :|
        FirstAt(full, x, a) && Dropped(full, a) && a < b < |full| && full[b].from == x && full[b].to != full[a].to;
      FirstAtUnique(full, x, a, i);
      if b < |prev| {
        assert Dropped(prev, i) && prev[b].from == x && prev[b].to != prev[i].to;
      }
    }
    if Split(prev, x) {
      var a: nat, b: nat :|
        FirstAt(prev, x, a) && Dropped(prev, a) && a < b < |prev| && prev[b].from == x && prev[b].to != prev[a].to;
      assert FirstAt(full, x, a) && Dropped(full, a) && full[b] == prev[b];
    }
    if Dropped(prev, i) && e.from == x && e.to != prev[i].to {
      assert Dropped(full, i) && full[|prev|] == e;
    }
  }

  /** The first element for `x` decides whether others pushed for it can tell a different value. */
  lemma SameValueUnlessSplit(full: seq<Elem>, x: nat, i: nat, j: nat)
    requires FirstAt(full, x, i) && Dropped(full, i) && i <= j < |full| && full[j].from == x && !Split(full, x)
    ensures full[j].to == full[i].to
  {
  }

  /** The answer for an address whose first element has index `i`. */
  ghost predicate AnswerAt(full: seq<Elem>, x: nat, i: nat) {
    var c := Compress(full);
    && FirstAt(full, x, i) && Find(full, x) == Some(full[i].to)
    && (!Dropped(full, i) ==> Has(c, x) && Find(c, x) == Find(full, x))
    && (Dropped(full, i) && !Split(full, x) ==> !Has(c, x) && Find(c, x) == Find(full, x))
    && (Split(full, x) ==> Has(c, x) && Find(c, x) != Find(full, x))
  }

  lemma AnswerFromFirst(full: seq<Elem>, x: nat, i: nat)
    requires AnswerAt(full, x, i)
    ensures Answer(full, x)
  {
    hide Find, Compress, Split;
    forall j: nat | FirstAt(full, x, j) ensures j == i {
      FirstAtUnique(full, x, i, j);
    }
    assert full[i].from == x;
  }

  /** A further element when some element for `x` is already there. */
  lemma AnswerSnocSeen(prev: seq<Elem>, e: Elem, x: nat, i: nat)
    requires Ascending(prev + [e]) && Ascending(Compress(prev) + [e]) && Answer(prev, x) && FirstAt(prev, x, i)
    ensures Answer(prev + [e], x)
  {
    hide Ascending, Find, Compress, Split, Has, FirstAt;
    var full, c := prev + [e], Compress(prev);
    CompressSnoc(prev, e);
    FindSnoc(prev, e, x);
    FindSnoc(c, e, x);
    SplitSnoc(prev, e, x, i);
    FirstInRange(prev, x, i);
    NotBelow(prev, e, x, i);
    assert full[i] == prev[i];
    if e.from == x {
      LastAtAddress(prev, e, x);
      if Dropped(prev, i) && !Split(prev, x) {
        SameValueUnlessSplit(prev, x, i, |prev| - 1);
      }
    }
    AnswerFromFirst(full, x, i);
  }

  lemma FirstInRange(s: seq<Elem>, x: nat, i: nat)
    requires FirstAt(s, x, i)
    ensures i < |s| && s[i].from == x && Has(s, x)
  {
  }

  lemma NotBelow(prev: seq<Elem>, e: Elem, x: nat, i: nat)
    requires Ascending(prev + [e]) && i < |prev| && prev[i].from == x
    ensures e.from >= x
  {
    assert (prev + [e])[i].from <= (prev + [e])[|prev|].from;
  }

  lemma LastAtAddress(prev: seq<Elem>, e: Elem, x: nat)
    requires Ascending(prev + [e]) && Has(prev, x) && e.from == x
    ensures prev[|prev| - 1].from == x
  {
    var i :| 0 <= i < |prev| && prev[i].from == x;
    var full := prev + [e];
    assert full[i] == prev[i] && full[|prev| - 1] == prev[|prev| - 1] && full[|prev|] == e;
    assert full[i].from <= full[|prev| - 1].from || i == |prev| - 1;
    assert full[|prev| - 1].from <= full[|prev|].from;
  }

  lemma CompressSnoc(prev: seq<Elem>, e: Elem)
    ensures Compress(prev + [e]) ==
            if prev != [] && e.to == prev[|prev| - 1].to then Compress(prev) else Compress(prev) + [e]
  {
    hide Compress;
    var full := prev + [e];
    CompressLast(full);
    assert full[..|full| - 1] == prev && full[|full| - 1] == e;
  }

  lemma CompressLast(full: seq<Elem>)
    requires full != []
    ensures var e, c := full[|full| - 1], Compress(full[..|full| - 1]);
            Compress(full) == if c != [] && e.to == c[|c| - 1].to then c else c + [e]
  {
  }

  /** A further element when none for `x` has been pushed yet. */
  lemma AnswerSnocNew(prev: seq<Elem>, e: Elem, x: nat)
    requires Ascending(prev + [e]) && Ascending(Compress(prev) + [e]) && Answer(prev, x) && !Has(prev, x)
    ensures Answer(prev + [e], x)
  {
    hide Ascending, Find, Compress, Split;
    var full, c := prev + [e], Compress(prev);
    CompressSnoc(prev, e);
    FindSnoc(prev, e, x);
    FindSnoc(c, e, x);
    NotSplitYet(prev, e, x);
    if e.from == x && prev != [] {
      BelowNew(prev, e, x);
      BelowNew(c, e, x);
      if c != [] {
        FindPastEnd(c, x);
      }
    }
    if prev != [] && e.from < x {
      BelowNew(c, e, x);
      BelowNew(prev, e, x);
      FindPastEnd(c, x);
    }
    forall j: nat | FirstAt(full, x, j) ensures j == |prev| && e.from == x {
      NewIsFirst(prev, e, x, j);
    }
  }

  lemma NewIsFirst(prev: seq<Elem>, e: Elem, x: nat, j: nat)
    requires !Has(prev, x) && FirstAt(prev + [e], x, j)
    ensures j == |prev| && e.from == x
  {
    assert forall k :: 0 <= k < |prev| ==> (prev + [e])[k] == prev[k] && prev[k].from != x;
  }

  lemma NotSplitYet(prev: seq<Elem>, e: Elem, x: nat)
    requires !Has(prev, x)
    ensures !Split(prev + [e], x)
  {
    forall a: nat | FirstAt(prev + [e], x, a) ensures a == |prev| {
      NewIsFirst(prev, e, x, a);
    }
  }

  lemma BelowNew(s: seq<Elem>, e: Elem, x: nat)
    requires Ascending(s + [e]) && !Has(s, x) && e.from <= x
    ensures forall i :: 0 <= i < |s| ==> s[i].from < x
  {
    forall i | 0 <= i < |s| ensures s[i].from < x {
      assert (s + [e])[i].from <= (s + [e])[|s|].from;
      assert s[i].from != x;
    }
  }

  lemma AnswerStep(prev: seq<Elem>, e: Elem, x: nat)
    requires Ascending(prev + [e]) && Ascending(Compress(prev) + [e]) && Answer(prev, x)
    ensures Answer(prev + [e], x)
  {
    hide Answer, Compress, Ascending, FirstAt;
    if Has(prev, x) {
      var i := FirstExists(prev, x);
      AnswerSnocSeen(prev, e, x, i);
    } else {
      AnswerSnocNew(prev, e, x);
    }
  }

  lemma NoAnswer(x: nat)
    ensures Answer([], x)
  {
  }

  lemma CompressedMayAppend(prev: seq<Elem>, e: Elem)
    requires Ascending(prev + [e])
    ensures Ascending(prev) && Ascending(Compress(prev) + [e])
  {
    var full := prev + [e];
    assert forall k :: 0 <= k < |prev| ==> full[k] == prev[k] && full[k].from <= full[|prev|].from;
    CompressedAscends(prev, e.from);
  }

  lemma {:induction false} CompressionAnswers(full: seq<Elem>, x: nat)
    requires Ascending(full)
    ensures Answer(full, x)
  {
    hide *;
    if full == [] {
      NoAnswer(x);
    } else {
      var n := |full| - 1;
      var prev, e := full[..n], full[n];
      assert prev + [e] == full;
      CompressedMayAppend(prev, e);
      CompressionAnswers(prev, x);
      AnswerStep(prev, e, x);
    }
  }

  /**
   * Dropping repeated values keeps every lookup, except exactly at an address that was pushed
   * with several values of which the first repeated the value before it. Inputs that do not ascend
   * are left out: a binary search in them has no meaning to keep.
   */
  lemma CompressionKeepsLookupIff(full: seq<Elem>, x: nat)
    requires Ascending(full)
    ensures Find(Compress(full), x) == Find(full, x) <==> !Split(full, x)
  {
    CompressionAnswers(full, x);
    if Split(full, x) {
      var i: nat, j: nat :|
        FirstAt(full, x, i) && Dropped(full, i) && i < j < |full| && full[j].from == x && full[j].to != full[i].to;
    } else if Has(full, x) {
      var i := FirstExists(full, x);
    }
  }

  lemma {:induction false} FirstExists(s: seq<Elem>, x: nat) returns (i: nat)
    requires Has(s, x)
    ensures FirstAt(s, x, i)
  {
    var n := |s| - 1;
    if Has(s[..n], x) {
      i := FirstExists(s[..n], x);
    } else {
      i := n;
    }
  }

  predicate StrictlyAscending(s: seq<Elem>) {
    forall i, j :: 0 <= i < j < |s| ==> s[i].from < s[j].from
  }

  /** The value in force at `x`: that of the last element at or below it. */
  ghost predicate InForce(s: seq<Elem>, x: nat, v: Option<int>) {
    if forall i :: 0 <= i < |s| ==> s[i].from > x then v == None
    else exists i :: 0 <= i < |s| && s[i].from <= x && v == Some(s[i].to) && forall j :: i < j < |s| ==> s[j].from > x
  }

  lemma NeverSplit(full: seq<Elem>, x: nat)
    requires StrictlyAscending(full)
    ensures !Split(full, x) && Ascending(full)
  {
  }

  /** For strictly ascending input the stored vector is the step function of everything pushed. */
  lemma StrictInputKeepsStepFunction(full: seq<Elem>, x: nat)
    requires StrictlyAscending(full)
    ensures InForce(full, x, Find(Compress(full), x))
  {
    hide Compress, Split;
    NeverSplit(full, x);
    CompressionKeepsLookupIff(full, x);
    var lb := LowerBound(full, x);
    if lb < |full| && full[lb].from == x {
      assert full[lb].from <= x && Find(full, x) == Some(full[lb].to);
    } else if lb > 0 {
      assert full[lb - 1].from <= x && Find(full, x) == Some(full[lb - 1].to);
    }
  }

  /** A repeated address really can change an answer: 4 maps to 5 in the input, to 7 once stored. */
  lemma RepeatedAddressCounterexample()
    ensures var full := [Elem(0, 5), Elem(4, 5), Elem(4, 7)];
            Ascending(full) && Find(full, 4) == Some(5) && Find(Compress(full), 4) == Some(7)
  {
    var full := [Elem(0, 5), Elem(4, 5), Elem(4, 7)];
    assert full[..2] == [Elem(0, 5), Elem(4, 5)] && full[..2][..1] == [Elem(0, 5)] && full[..1] == [Elem(0, 5)];
    assert Compress([Elem(0, 5)]) == [Elem(0, 5)];
    assert Compress(full[..2]) == [Elem(0, 5)];
    assert Compress(full) == [Elem(0, 5), Elem(4, 7)];
  }
}
