/**
 * Labels are decimal numbers; `sorted(labels, key=int)` and the largest label. The sort
 * is an insertion sort whose properties are lemmas, so that proofs which only carry a
 * sorted list around are not burdened with them.
 */
module Labels {

  predicate Ascending(s: seq<nat>) {
    forall x, y :: 0 <= x < y < |s| ==> s[x] <= s[y]
  }

  lemma AscendingCons(h: nat, t: seq<nat>)
    requires Ascending(t) && (t == [] || h <= t[0])
    ensures Ascending([h] + t)
  {
    var r := [h] + t;
    forall x, y | 0 <= x < y < |r| ensures r[x] <= r[y] {
      if x > 0 { assert r[x] == t[x - 1] && r[y] == t[y - 1]; }
      else { assert r[y] == t[y - 1]; }
    }
  }

  /** `x` placed before the first element of `s` that is not below it. */
  function Insert(x: nat, s: seq<nat>): seq<nat> {
    if s == [] || x <= s[0] then [x] + s else [s[0]] + Insert(x, s[1..])
  }

  /** Inserting into an ascending list keeps it ascending and adds exactly `x`. */
  lemma {:induction false} InsertSorts(x: nat, s: seq<nat>)
    requires Ascending(s)
    ensures var r := Insert(x, s);
      |r| == |s| + 1 && r[0] == (if s == [] || x <= s[0] then x else s[0])
      && Ascending(r) && multiset(r) == multiset(s) + multiset{x}
  {
    if s == [] || x <= s[0] {
      AscendingCons(x, s);
    } else {
      var t := Insert(x, s[1..]);
      InsertSorts(x, s[1..]);
      assert s == [s[0]] + s[1..];
      assert |s| > 1 ==> s[0] <= s[1];
      AscendingCons(s[0], t);
    }
  }

  /** `sorted(labels, key=int)`. */
  function SortLabels(s: seq<nat>): seq<nat> {
    if s == [] then [] else Insert(s[0], SortLabels(s[1..]))
  }

  /** The sorted list is ascending and a permutation of the input. */
  lemma {:induction false} SortLabelsSorts(s: seq<nat>)
    ensures var r := SortLabels(s);
      |r| == |s| && Ascending(r) && multiset(r) == multiset(s)
  {
    if s != [] {
      SortLabelsSorts(s[1..]);
      InsertSorts(s[0], SortLabels(s[1..]));
      assert s == [s[0]] + s[1..];
    }
  }

  /** The numerically largest label, by a plain scan. */
  function MaxLabel(s: seq<nat>): (r: nat)
    requires s != []
    ensures r in s && forall x :: x in s ==> x <= r
  {
    if |s| == 1 then s[0]
    else
      var m := MaxLabel(s[1..]);
      assert s == [s[0]] + s[1..];
      if s[0] >= m then s[0] else m
  }

  /** After sorting, the last label is the largest one (what `labels[-1]` picks). */
  lemma SortedLastIsMax(s: seq<nat>)
    requires s != []
    ensures |SortLabels(s)| == |s| && SortLabels(s)[|s| - 1] == MaxLabel(s)
  {
    var r := SortLabels(s);
    SortLabelsSorts(s);
    var last := r[|r| - 1];
    assert last in multiset(r);
    assert last in s;
    var top := MaxLabel(s);
    assert top in multiset(r);
    var k :| 0 <= k < |r| && r[k] == top;
    assert k == |r| - 1 || r[k] <= r[|r| - 1];
  }
}
