/**
 * Nested class-by-class storage seen as one list, in visiting order. Both forms are taken
 * apart from the end, so that a loop that has visited a prefix can name what it has seen.
 */
module Flatten {
  import opened SafeMap

  /** The methods of one class that have compiled code. */
  function Compact<T>(s: seq<Option<T>>): (r: seq<T>)
    ensures |r| <= |s|
  {
    if s == [] then []
    else
      var rest := Compact(s[..|s| - 1]);
      match s[|s| - 1]
      case None => rest
      case Some(v) => rest + [v]
  }

  function Flat<T>(cs: seq<seq<Option<T>>>): seq<T> {
    if cs == [] then [] else Flat(cs[..|cs| - 1]) + Compact(cs[|cs| - 1])
  }

  function Concat<T>(ss: seq<seq<T>>): seq<T> {
    if ss == [] then [] else Concat(ss[..|ss| - 1]) + ss[|ss| - 1]
  }

  /** What a visitor has seen before method `j` of class `i`. */
  function Seen<T>(cs: seq<seq<Option<T>>>, i: nat, j: nat): seq<T>
    requires i <= |cs| && (i < |cs| ==> j <= |cs[i]|) && (i == |cs| ==> j == 0)
  {
    if i == |cs| then Flat(cs) else Flat(cs[..i]) + Compact(cs[i][..j])
  }

  lemma CompactStep<T>(s: seq<Option<T>>, j: nat)
    requires j < |s|
    ensures Compact(s[..j + 1]) == match s[j] { case None => Compact(s[..j]) case Some(v) => Compact(s[..j]) + [v] }
  {
    assert s[..j + 1][..j] == s[..j];
  }

  lemma {:induction false} CompactPrefix<T>(s: seq<Option<T>>, j: nat)
    requires j <= |s|
    ensures Compact(s[..j]) <= Compact(s)
  {
    if j < |s| {
      CompactPrefix(s[..|s| - 1], j);
      assert s[..|s| - 1][..j] == s[..j];
    } else {
      assert s[..j] == s;
    }
  }

  lemma {:induction false} FlatPrefix<T>(cs: seq<seq<Option<T>>>, i: nat)
    requires i <= |cs|
    ensures Flat(cs[..i]) <= Flat(cs)
  {
    if i < |cs| {
      FlatPrefix(cs[..|cs| - 1], i);
      assert cs[..|cs| - 1][..i] == cs[..i];
    } else {
      assert cs[..i] == cs;
    }
  }

  lemma FlatStep<T>(cs: seq<seq<Option<T>>>, i: nat)
    requires i < |cs|
    ensures Flat(cs[..i + 1]) == Flat(cs[..i]) + Compact(cs[i])
  {
    assert cs[..i + 1][..i] == cs[..i];
  }

  lemma SeenAll<T>(cs: seq<seq<Option<T>>>)
    ensures Seen(cs, |cs|, 0) == Flat(cs)
  {
  }

  lemma SeenNothing<T>(cs: seq<seq<Option<T>>>)
    ensures Seen(cs, 0, 0) == []
  {
    if cs != [] {
      assert cs[0][..0] == [] && cs[..0] == [];
    }
  }

  /** Whatever has been seen is a prefix of the whole list. */
  lemma SeenIsPrefix<T>(cs: seq<seq<Option<T>>>, i: nat, j: nat)
    requires i < |cs| && j <= |cs[i]|
    ensures Seen(cs, i, j) <= Flat(cs)
  {
    FlatStep(cs, i);
    FlatPrefix(cs, i + 1);
    CompactPrefix(cs[i], j);
  }

  /** The method a visitor stands at is the next one of the list, or there is none. */
  lemma SeenStep<T>(cs: seq<seq<Option<T>>>, i: nat, j: nat)
    requires i < |cs| && j < |cs[i]|
    ensures cs[i][j].None? ==> Seen(cs, i, j + 1) == Seen(cs, i, j)
    ensures cs[i][j].Some? ==> |Seen(cs, i, j)| < |Flat(cs)| && Flat(cs)[|Seen(cs, i, j)|] == cs[i][j].value
    ensures cs[i][j].Some? ==> |Seen(cs, i, j + 1)| == |Seen(cs, i, j)| + 1
  {
    CompactStep(cs[i], j);
    SeenIsPrefix(cs, i, j + 1);
    if cs[i][j].Some? {
      assert Seen(cs, i, j + 1) == Seen(cs, i, j) + [cs[i][j].value];
    }
  }

  lemma SeenNextClass<T>(cs: seq<seq<Option<T>>>, i: nat)
    requires i < |cs|
    ensures Seen(cs, i, |cs[i]|) == Seen(cs, i + 1, 0)
  {
    FlatStep(cs, i);
    assert cs[i][..|cs[i]|] == cs[i];
    if i + 1 == |cs| {
      assert cs[..i + 1] == cs;
    } else {
      assert Compact(cs[i + 1][..0]) == [];
    }
  }

  // ---------------------------------------------------------------- storage per class

  /** One slot per compiled method, class by class. */
  ghost predicate Shaped<T, U>(cs: seq<seq<Option<T>>>, ss: seq<seq<U>>) {
    |ss| == |cs| && forall i :: 0 <= i < |cs| ==> |ss[i]| == |Compact(cs[i])|
  }

  lemma {:induction false} ShapedLength<T, U>(cs: seq<seq<Option<T>>>, ss: seq<seq<U>>)
    requires Shaped(cs, ss)
    ensures |Concat(ss)| == |Flat(cs)|
  {
    if cs != [] {
      ShapedLength(cs[..|cs| - 1], ss[..|ss| - 1]);
    }
  }

  lemma {:induction false} ConcatPrefix<U>(ss: seq<seq<U>>, i: nat)
    requires i < |ss|
    ensures Concat(ss[..i]) + ss[i] <= Concat(ss)
  {
    var n := |ss| - 1;
    if i < n {
      ConcatPrefix(ss[..n], i);
      assert ss[..n][..i] == ss[..i];
    }
  }

  /** The slot of a visitor's method is at the rank it has in the whole list. */
  lemma SlotOfSeen<T, U>(cs: seq<seq<Option<T>>>, ss: seq<seq<U>>, i: nat, j: nat)
    requires Shaped(cs, ss) && i < |cs| && j < |cs[i]| && cs[i][j].Some?
    ensures var r := |Compact(cs[i][..j])|;
            var k := |Seen(cs, i, j)|;
            r < |ss[i]| && k < |Concat(ss)| && Concat(ss)[k] == ss[i][r]
            && |Concat(ss[..i])| == k - r
  {
    SeenStep(cs, i, j);
    CompactStep(cs[i], j);
    CompactPrefix(cs[i], j + 1);
    assert Shaped(cs[..i], ss[..i]);
    ShapedLength(cs[..i], ss[..i]);
    ConcatPrefix(ss, i);
  }

  function SetSlot<U>(ss: seq<seq<U>>, i: nat, r: nat, v: U): seq<seq<U>>
    requires i < |ss| && r < |ss[i]|
  {
    ss[i := ss[i][r := v]]
  }

  /** Overwriting one slot in place overwrites one element of the list. */
  lemma {:induction false} ConcatUpdate<U>(ss: seq<seq<U>>, i: nat, r: nat, v: U)
    requires i < |ss| && r < |ss[i]|
    ensures |Concat(ss[..i])| + r < |Concat(ss)|
    ensures Concat(SetSlot(ss, i, r, v)) == Concat(ss)[|Concat(ss[..i])| + r := v]
  {
    var n := |ss| - 1;
    var tt := SetSlot(ss, i, r, v);
    ConcatPrefix(ss, i);
    if i < n {
      ConcatUpdate(ss[..n], i, r, v);
      assert ss[..n][..i] == ss[..i];
      assert tt[..n] == ss[..n][i := ss[i][r := v]];
    } else {
      assert tt[..n] == ss[..n];
    }
  }

  lemma {:induction false} ConcatConstant<U>(ss: seq<seq<U>>, v: U)
    requires forall i, r :: 0 <= i < |ss| && 0 <= r < |ss[i]| ==> ss[i][r] == v
    ensures forall q :: 0 <= q < |Concat(ss)| ==> Concat(ss)[q] == v
  {
    if ss != [] {
      ConcatConstant(ss[..|ss| - 1], v);
    }
  }
}
