/** Sums of sizes over finite sets, independent of the order in which the set was built. */
module Totals {

  type Sizes = map<nat, nat>

  function At(d: Sizes, x: nat): nat {
    if x in d then d[x] else 0
  }

  ghost function Total(d: Sizes, s: set<nat>): (t: nat)
  {
    if s == {} then 0
    else
      var x :| x in s;
      At(d, x) + Total(d, s - {x})
  }

  lemma TotalEmpty(d: Sizes)
    ensures Total(d, {}) == 0
  {
  }

  lemma {:induction false} TotalRemove(d: Sizes, s: set<nat>, x: nat)
    requires x in s
    ensures Total(d, s) == At(d, x) + Total(d, s - {x})
    decreases |s|
  {
    hide At;
    var y :| y in s && Total(d, s) == At(d, y) + Total(d, s - {y});
    if y != x {
      TotalRemove(d, s - {y}, x);
      TotalRemove(d, s - {x}, y);
      assert s - {y} - {x} == s - {x} - {y};
    }
  }

  lemma TotalInsert(d: Sizes, s: set<nat>, x: nat)
    requires x !in s
    ensures Total(d, s + {x}) == Total(d, s) + At(d, x)
  {
    hide Total, At;
    TotalRemove(d, s + {x}, x);
    assert s + {x} - {x} == s;
  }

  lemma {:induction false} TotalUnion(d: Sizes, s: set<nat>, t: set<nat>)
    requires s !! t
    ensures Total(d, s + t) == Total(d, s) + Total(d, t)
    decreases |t|
  {
    hide At;
    if t == {} {
      assert s + t == s;
    } else {
      hide Total;
      var x :| x in t;
      TotalUnion(d, s, t - {x});
      TotalRemove(d, t, x);
      TotalRemove(d, s + t, x);
      assert s + t - {x} == s + (t - {x});
    }
  }

  lemma TotalSubset(d: Sizes, s: set<nat>, t: set<nat>)
    requires s <= t
    ensures Total(d, s) <= Total(d, t)
  {
    TotalUnion(d, s, t - s);
    assert s + (t - s) == t;
  }
}
