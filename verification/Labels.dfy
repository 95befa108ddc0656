/** `distinct_labels`: one label per product name, a repeated name numbered. */
module Labels {
  import opened Decimals
  import opened Sets

  /** The n-th label tried for a name. */
  function Attempt(name: string, n: nat): string {
    if n == 1 then name else name + " (" + Numeral(n) + ")"
  }

  lemma AttemptsDiffer(name: string, m: nat, n: nat)
    requires 1 <= m && 1 <= n && m != n
    ensures Attempt(name, m) != Attempt(name, n)
  {
    NumeralReadsBack(m);
    NumeralReadsBack(n);
    var a, b := Attempt(name, m), Attempt(name, n);
    assert m > 1 ==> a[|name| + 2..|a| - 1] == Numeral(m);
    assert n > 1 ==> b[|name| + 2..|b| - 1] == Numeral(n);
  }

  function Tried(name: string, n: nat): set<string> {
    set k | 1 <= k < n :: Attempt(name, k)
  }

  /** The first n - 1 labels tried are n - 1 different ones. */
  lemma {:induction false} TriedSize(name: string, n: nat)
    requires n >= 1
    ensures |Tried(name, n)| == n - 1
  {
    if n > 1 {
      TriedSize(name, n - 1);
      forall k | 1 <= k < n - 1 ensures Attempt(name, k) != Attempt(name, n - 1) {
        AttemptsDiffer(name, k, n - 1);
      }
      assert Tried(name, n) == Tried(name, n - 1) + {Attempt(name, n - 1)};
    } else {
      assert Tried(name, n) == {};
    }
  }

  /** The label is the first one tried that no earlier product has. */
  ghost predicate FirstUnused(name: string, chosen: string, given: seq<string>) {
    exists n: nat :: 1 <= n <= |given| + 1 && IsAttempt(name, chosen, given, n)
  }

  ghost predicate IsAttempt(name: string, chosen: string, given: seq<string>, n: nat) {
    chosen == Attempt(name, n) && chosen !in given && forall k | 1 <= k < n :: Attempt(name, k) in given
  }

  /** The search for one name. It tries at most one label more than are used,
      for the labels tried are all different. */
  method PickLabel(name: string, used: set<string>, ghost given: seq<string>) returns (chosen: string)
    requires |used| == |given| && forall l :: l in used <==> l in given
    ensures FirstUnused(name, chosen, given)
    ensures chosen == name <==> name !in given
  {
    var n: nat := 1;
    chosen := name;
    while chosen in used
      invariant n >= 1 && chosen == Attempt(name, n)
      invariant Tried(name, n) <= used
      invariant n > 1 ==> name in used
      decreases |used| + 1 - n
    {
      n := n + 1;
      chosen := name + " (" + Numeral(n) + ")";
      TriedSize(name, n);
      SubsetSize(Tried(name, n), used);
    }
    TriedSize(name, n);
    SubsetSize(Tried(name, n), used);
    assert forall k | 1 <= k < n :: Attempt(name, k) in Tried(name, n);
    assert IsAttempt(name, chosen, given, n);
  }

  /** The labels of the first names: each the first unused one, and the name
      itself exactly when nobody has it yet. */
  ghost predicate Labelled(names: seq<string>, labels: seq<string>) {
    |labels| <= |names| && forall i | 0 <= i < |labels| :: LabelledAt(names, labels, i)
  }

  ghost predicate LabelledAt(names: seq<string>, labels: seq<string>, i: nat)
    requires i < |labels| <= |names|
  {
    FirstUnused(names[i], labels[i], labels[..i]) && (labels[i] == names[i] <==> names[i] !in labels[..i])
  }

  lemma LabelledNext(names: seq<string>, labels: seq<string>, chosen: string)
    requires Labelled(names, labels) && |labels| < |names|
    requires FirstUnused(names[|labels|], chosen, labels)
    requires chosen == names[|labels|] <==> names[|labels|] !in labels
    ensures Labelled(names, labels + [chosen])
  {
    var longer := labels + [chosen];
    forall i | 0 <= i < |longer| ensures LabelledAt(names, longer, i) {
      assert longer[..i] == labels[..i];
      assert i < |labels| ==> LabelledAt(names, labels, i);
      assert labels[..|labels|] == labels;
    }
  }

  lemma LabelledDiffer(names: seq<string>, labels: seq<string>, i: nat, j: nat)
    requires Labelled(names, labels) && i < j < |labels|
    ensures labels[i] != labels[j]
  {
    assert LabelledAt(names, labels, j);
    assert labels[i] in labels[..j];
  }

  method DistinctLabels(names: seq<string>) returns (labels: seq<string>)
    ensures |labels| == |names| && Labelled(names, labels)
    ensures forall i, j | 0 <= i < j < |labels| :: labels[i] != labels[j]
  {
    var used: set<string> := {};
    labels := [];
    for i := 0 to |names|
      invariant |labels| == i && |used| == i
      invariant forall l :: l in used <==> l in labels
      invariant Labelled(names, labels)
    {
      var chosen := PickLabel(names[i], used, labels);
      LabelledNext(names, labels, chosen);
      used := used + {chosen};
      labels := labels + [chosen];
    }
    forall i, j | 0 <= i < j < |labels| ensures labels[i] != labels[j] {
      LabelledDiffer(names, labels, i, j);
    }
  }
}
