/** The titles blob of a source: its non-empty titles, one per line, lowercased.
    A search asks the blob instead of the items. `lower` is any way of
    lowercasing that works line by line: what stands beyond a line break never
    changes how a line is lowered, and no line gains a break. A letter may well
    depend on its neighbours in the line, as the final sigma does. */
module TitleIndex {

  type Lowering = string -> string

  ghost predicate LowersLines(lower: Lowering) {
    && lower("") == ""
    && (forall s, t :: lower(s + "\n" + t) == lower(s) + "\n" + lower(t))
    && (forall s :: '\n' !in s ==> '\n' !in lower(s))
    && (forall s :: lower(lower(s)) == lower(s))
  }

  predicate OccursAt(text: string, q: string, i: int) {
    0 <= i <= |text| - |q| && text[i..i + |q|] == q
  }

  predicate Contains(text: string, q: string) {
    exists i :: 0 <= i <= |text| && OccursAt(text, q, i)
  }

  /** `"\n".join(...)`. */
  function Joined(titles: seq<string>): string {
    if titles == [] then ""
    else if |titles| == 1 then titles[0]
    else Joined(titles[..|titles| - 1]) + "\n" + titles[|titles| - 1]
  }

  function NonEmpty(titles: seq<string>): seq<string> {
    if titles == [] then []
    else NonEmpty(titles[..|titles| - 1]) + if titles[|titles| - 1] != "" then [titles[|titles| - 1]] else []
  }

  /** What `set` writes under the titles key. */
  function Blob(lower: Lowering, titles: seq<string>): string {
    lower(Joined(NonEmpty(titles)))
  }

  /** A query of one line does not reach over a line break. */
  lemma OccursBeside(a: string, b: string, q: string, i: int)
    requires '\n' !in q && q != ""
    ensures OccursAt(a + "\n" + b, q, i) <==> OccursAt(a, q, i) || OccursAt(b, q, i - |a| - 1)
  {
    var text, n := a + "\n" + b, |a| + 1;
    if 0 <= i && i + |q| <= |a| {
      assert text[i..i + |q|] == a[i..i + |q|];
    } else if n <= i && i + |q| <= |text| {
      assert text[i..i + |q|] == b[i - n..i - n + |q|];
    } else if 0 <= i <= |a| && i + |q| <= |text| {
      assert text[i..i + |q|][|a| - i] == '\n';
    }
  }

  /** A line break splits the search: the query lies on one side of it. */
  lemma SplitAtBreak(a: string, b: string, q: string)
    requires '\n' !in q && q != ""
    ensures Contains(a + "\n" + b, q) <==> Contains(a, q) || Contains(b, q)
  {
    var text, n := a + "\n" + b, |a| + 1;
    if i :| 0 <= i <= |text| && OccursAt(text, q, i) {
      OccursBeside(a, b, q, i);
    }
    if i :| 0 <= i <= |a| && OccursAt(a, q, i) {
      OccursBeside(a, b, q, i);
    }
    if i :| 0 <= i <= |b| && OccursAt(b, q, i) {
      OccursBeside(a, b, q, n + i);
      assert OccursAt(text, q, n + i);
    }
  }

  /** Some title contains the query, once lowercased: the full scan. */
  predicate SomeTitleContains(lower: Lowering, titles: seq<string>, q: string) {
    exists k :: 0 <= k < |titles| && Contains(lower(titles[k]), q)
  }

  /** The gate of the search: the stored blob, lowercased once more, holds the
      query. */
  predicate Gate(lower: Lowering, titles: seq<string>, q: string) {
    Contains(lower(Blob(lower, titles)), q)
  }

  lemma {:induction false} JoinedSearch(lower: Lowering, titles: seq<string>, q: string)
    requires LowersLines(lower) && '\n' !in q && q != ""
    ensures Contains(lower(Joined(titles)), q) <==> SomeTitleContains(lower, titles, q)
    decreases |titles|
  {
    if |titles| > 1 {
      var shorter, last := titles[..|titles| - 1], titles[|titles| - 1];
      JoinedSearch(lower, shorter, q);
      SplitAtBreak(lower(Joined(shorter)), lower(last), q);
      SomeTitleMore(lower, shorter, last, q);
      assert titles == shorter + [last];
    } else if |titles| == 1 {
      assert titles[0] == Joined(titles);
    }
  }

  lemma SomeTitleMore(lower: Lowering, titles: seq<string>, last: string, q: string)
    ensures SomeTitleContains(lower, titles + [last], q) <==>
      SomeTitleContains(lower, titles, q) || Contains(lower(last), q)
  {
    var longer := titles + [last];
    if SomeTitleContains(lower, titles, q) {
      var k :| 0 <= k < |titles| && Contains(lower(titles[k]), q);
      assert longer[k] == titles[k];
    }
    if Contains(lower(last), q) {
      assert longer[|titles|] == last;
    }
  }

  lemma {:induction false} EmptyTitlesDoNotMatter(lower: Lowering, titles: seq<string>, q: string)
    requires lower("") == "" && q != ""
    ensures SomeTitleContains(lower, NonEmpty(titles), q) <==> SomeTitleContains(lower, titles, q)
    decreases |titles|
  {
    if titles != [] {
      var shorter, last := titles[..|titles| - 1], titles[|titles| - 1];
      EmptyTitlesDoNotMatter(lower, shorter, q);
      SomeTitleMore(lower, shorter, last, q);
      SomeTitleMore(lower, NonEmpty(shorter), last, q);
      assert titles == shorter + [last];
      assert NonEmpty(shorter) + [] == NonEmpty(shorter);
    }
  }

  /** The gate agrees with the scan: a non-empty query of one line is in the blob
      exactly when it is in some item's lowercased title. */
  lemma BlobAnswersForTitles(lower: Lowering, titles: seq<string>, q: string)
    requires LowersLines(lower) && '\n' !in q && q != ""
    ensures Gate(lower, titles, q) <==> SomeTitleContains(lower, titles, q)
  {
    JoinedSearch(lower, NonEmpty(titles), q);
    EmptyTitlesDoNotMatter(lower, titles, q);
  }

  lemma FirstBreak(a: string, b: string, c: string, d: string)
    requires a + "\n" + b == c + "\n" + d && '\n' !in a && '\n' !in c
    ensures a == c && b == d
  {
    var text := a + "\n" + b;
    assert text[|a|] == '\n' && text[|c|] == '\n';
    assert forall k | 0 <= k < |a| :: text[k] == a[k];
    assert forall k | 0 <= k < |c| :: text[k] == c[k];
    assert |a| == |c|;
    assert a == text[..|a|] && b == text[|a| + 1..];
  }

  lemma {:induction false} SplitFirst(q: string) returns (a: string, b: string)
    requires '\n' in q
    ensures q == a + "\n" + b && '\n' !in a
  {
    if q[0] == '\n' {
      a, b := "", q[1..];
    } else {
      var rest, after := SplitFirst(q[1..]);
      a, b := [q[0]] + rest, after;
    }
  }

  /** A part of the query, or any title when that part is empty. */
  function TitleFor(part: string): string {
    if part == "" then "x" else part
  }

  lemma TwoTitles(lower: Lowering, first: string, second: string)
    requires LowersLines(lower) && first != "" && second != ""
    ensures Blob(lower, [first, second]) == lower(first) + "\n" + lower(second)
  {
    var titles := [first, second];
    assert titles[..1] == [first] && titles[..1][..0] == [];
    assert NonEmpty(titles[..1]) == [first] && NonEmpty(titles) == titles;
    assert Joined(titles) == first + "\n" + second;
    assert lower(first + "\n" + second) == lower(first) + "\n" + lower(second);
  }

  /** No title made of a part of the query holds the query: it is too short, or
      has no break. */
  lemma PartMisses(lower: Lowering, part: string, q: string)
    requires LowersLines(lower) && lower(part) == part && |part| < |q| && '\n' in q
    ensures !Contains(lower(TitleFor(part)), q)
  {
    if part == "" {
      var text := lower("x");
      var k :| 0 <= k < |q| && q[k] == '\n';
      forall i ensures !OccursAt(text, q, i) {
        if 0 <= i <= |text| - |q| {
          assert text[i..i + |q|][k] == text[i + k] && text[i + k] in text;
        }
      }
    }
  }

  lemma PartsMeet(lower: Lowering, a: string, b: string)
    requires LowersLines(lower) && lower(a) == a && lower(b) == b
    ensures Contains(lower(TitleFor(a)) + "\n" + lower(TitleFor(b)), a + "\n" + b)
  {
    var left, right, q := lower(TitleFor(a)), lower(TitleFor(b)), a + "\n" + b;
    var i := if a == "" then |left| else 0;
    assert (left + "\n" + right)[i..i + |q|] == q;
    assert OccursAt(left + "\n" + right, q, i);
  }

  /** A query with a line break can match across two titles that neither holds:
      its two parts are such titles. */
  lemma BreakInQueryMisleads(lower: Lowering, q: string) returns (titles: seq<string>)
    requires LowersLines(lower) && lower(q) == q && '\n' in q
    ensures Gate(lower, titles, q) && !SomeTitleContains(lower, titles, q)
  {
    var a, b := SplitFirst(q);
    FirstBreak(lower(a), lower(b), a, b);
    titles := [TitleFor(a), TitleFor(b)];
    TwoTitles(lower, TitleFor(a), TitleFor(b));
    PartsMeet(lower, a, b);
    PartMisses(lower, a, q);
    PartMisses(lower, b, q);
    assert titles == [] + [titles[0]] + [titles[1]];
    SomeTitleMore(lower, [], titles[0], q);
    SomeTitleMore(lower, [] + [titles[0]], titles[1], q);
  }

  ghost predicate GateAgrees(lower: Lowering, q: string) {
    forall titles :: Gate(lower, titles, q) <==> SomeTitleContains(lower, titles, q)
  }

  /** For a lowercase query the gate agrees with the scan on every list of titles
      exactly when the query is of one line. */
  lemma GateAgreesExactly(lower: Lowering, q: string)
    requires LowersLines(lower) && q != "" && lower(q) == q
    ensures GateAgrees(lower, q) <==> '\n' !in q
  {
    if '\n' !in q {
      forall titles ensures Gate(lower, titles, q) <==> SomeTitleContains(lower, titles, q) {
        BlobAnswersForTitles(lower, titles, q);
      }
    } else {
      var titles := BreakInQueryMisleads(lower, q);
      assert !(Gate(lower, titles, q) <==> SomeTitleContains(lower, titles, q));
    }
  }
}
