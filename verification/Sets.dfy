/** Finite sets by size. */
module Sets {

  lemma {:induction false} SubsetSize<T>(a: set<T>, b: set<T>)
    requires a <= b
    ensures |a| <= |b|
  {
    if a != {} {
      var x :| x in a;
      SubsetSize(a - {x}, b - {x});
    }
  }

  lemma Member<T>(s: set<T>) returns (x: T)
    requires s != {}
    ensures x in s
  {
    x :| x in s;
  }

  /** A set of integers between `low` and `high` holds at most all of them. */
  lemma {:induction false} RangeSize(s: set<int>, low: int, high: int)
    requires forall x | x in s :: low <= x <= high
    requires low <= high + 1
    ensures |s| <= high - low + 1
    decreases high - low
  {
    if low <= high {
      RangeSize(s - {high}, low, high - 1);
    } else if |s| > 0 {
      var x := Member(s);
      assert false;
    }
  }

  /** So does one of natural numbers from `from` on and below `to`. */
  lemma {:induction false} IdsBetween(ids: set<nat>, from: nat, to: nat)
    requires from <= to && forall i | i in ids :: from <= i < to
    ensures |ids| <= to - from
    decreases (to)
  {
    if from == to {
      assert ids == {};
    } else {
      IdsBetween(ids - {to - 1}, from, to - 1);
    }
  }
}
