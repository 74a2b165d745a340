/**
 * `merge_nested_labels` (src/utils/text_preprocess.py): the tokenizer gives a mention that
 * sits inside other mentions a nesting count `numLabels`; this pass walks the list right
 * to left with a cursor `j` on the nested mention and a cursor `i` on the mention before
 * it. For each level of nesting the mention before either is blank and is folded into
 * the nested one (its labels move over, and it leaves the list), or receives the nested
 * mention's text.
 */
module NestedLabels {
  import opened Text
  import opened Mentions

  /** Every label of every mention, counted with repeats. */
  function LabelBag(ms: seq<Annotated>): multiset<nat> {
    if ms == [] then multiset{} else LabelBag(ms[..|ms| - 1]) + multiset(ms[|ms| - 1].labels)
  }

  lemma {:induction false} LabelBagAppend(a: seq<Annotated>, b: seq<Annotated>)
    ensures LabelBag(a + b) == LabelBag(a) + LabelBag(b)
    decreases |b|
  {
    if b == [] {
      assert a + b == a;
    } else {
      var init, last := b[..|b| - 1], b[|b| - 1];
      assert (a + b)[..|a + b| - 1] == a + init;
      assert (a + b)[|a + b| - 1] == last;
      LabelBagAppend(a, init);
    }
  }

  lemma LabelBagSingle(m: Annotated)
    ensures LabelBag([m]) == multiset(m.labels)
  {
    assert [m][..0] == [];
  }

  /** Replacing one mention swaps its labels for those of the new one. */
  lemma LabelBagUpdate(ms: seq<Annotated>, k: nat, m: Annotated)
    requires k < |ms|
    ensures LabelBag(ms[k := m]) + multiset(ms[k].labels) == LabelBag(ms) + multiset(m.labels)
  {
    var p, q := ms[..k], ms[k + 1..];
    assert ms == (p + [ms[k]]) + q;
    assert ms[k := m] == (p + [m]) + q;
    LabelBagAppend(p + [ms[k]], q);
    LabelBagAppend(p + [m], q);
    LabelBagAppend(p, [ms[k]]);
    LabelBagAppend(p, [m]);
    LabelBagSingle(ms[k]);
    LabelBagSingle(m);
  }

  lemma Cancel(a: multiset<nat>, b: multiset<nat>, m: multiset<nat>)
    requires a + m == b + m
    ensures a == b
  {
    forall x ensures a[x] == b[x] {
      assert (a + m)[x] == (b + m)[x];
    }
  }

  /** `list.remove` of the element at index `k`. */
  function RemoveAt<T>(s: seq<T>, k: nat): (r: seq<T>)
    requires k < |s|
    ensures |r| == |s| - 1
    ensures forall x :: 0 <= x < k ==> r[x] == s[x]
    ensures forall x :: k <= x < |r| ==> r[x] == s[x + 1]
  {
    s[..k] + s[k + 1..]
  }

  /** Removing one mention removes its labels. */
  lemma LabelBagRemove(ms: seq<Annotated>, k: nat)
    requires k < |ms|
    ensures LabelBag(RemoveAt(ms, k)) + multiset(ms[k].labels) == LabelBag(ms)
  {
    var p, q := ms[..k], ms[k + 1..];
    assert ms == (p + [ms[k]]) + q;
    assert RemoveAt(ms, k) == p + q;
    var bp, bq, bm := LabelBag(p), LabelBag(q), multiset(ms[k].labels);
    assert LabelBag(ms) == bp + bm + bq by {
      LabelBagAppend(p + [ms[k]], q);
      LabelBagAppend(p, [ms[k]]);
      LabelBagSingle(ms[k]);
    }
    assert LabelBag(p + q) == bp + bq by {
      LabelBagAppend(p, q);
    }
  }

  // ---------------------------------------------------------------------------
  // What the pass keeps of a mention
  // ---------------------------------------------------------------------------

  /**
   * `g` is what mention `m` may have become: same id, labels only added in front, text
   * only added at the end, a class only filled in when it was empty, and no more nesting.
   */
  predicate Grown(m: Annotated, g: Annotated) {
    && g.id == m.id
    && |m.labels| <= |g.labels| && g.labels[|g.labels| - |m.labels|..] == m.labels
    && m.text <= g.text
    && (m.cls != "" ==> g.cls == m.cls)
    && g.numLabels <= m.numLabels
  }

  lemma GrownLabels(m: Annotated, g: Annotated, front: seq<nat>)
    requires Grown(m, g)
    ensures Grown(m, g.(labels := front + g.labels))
  {
    var ls := front + g.labels;
    assert ls[|ls| - |m.labels|..] == g.labels[|g.labels| - |m.labels|..];
  }

  lemma GrownText(m: Annotated, g: Annotated, tail: string)
    requires Grown(m, g)
    ensures Grown(m, g.(text := g.text + tail))
  {
    assert m.text <= g.text + tail by {
      assert (g.text + tail)[..|m.text|] == g.text[..|m.text|];
    }
  }

  predicate StrictlyIncreasing(s: seq<nat>) {
    forall x, y :: 0 <= x < y < |s| ==> s[x] < s[y]
  }

  /** Every mention of `ms` whose position is not in `kept` has blank text. */
  predicate DroppedBlank(ms: seq<Annotated>, kept: seq<nat>) {
    forall k {:trigger k in kept} :: 0 <= k < |ms| && k !in kept ==> IsBlank(ms[k].text)
  }

  /** Dropping a kept position whose mention is blank keeps every dropped mention blank. */
  lemma DroppedRemove(ms: seq<Annotated>, kept: seq<nat>, i: nat)
    requires DroppedBlank(ms, kept) && StrictlyIncreasing(kept) && i < |kept|
    requires kept[i] < |ms| && IsBlank(ms[kept[i]].text)
    ensures DroppedBlank(ms, RemoveAt(kept, i))
  {
    var kr := RemoveAt(kept, i);
    KeptRemove(kept, i);
    forall k | 0 <= k < |ms| && k !in kr ensures IsBlank(ms[k].text) {
      if k != kept[i] {
        forall x | 0 <= x < |kept| ensures kept[x] != k {
          if x != i { assert kept[x] in kr; }
        }
        assert k !in kept;
      }
    }
  }

  /**
   * `cur` is the list midway through the pass over `ms`: its mentions are the mentions
   * of `ms` at positions `kept`, in their order and grown; every mention that left the list
   * had blank text; and no label was lost or invented.
   */
  predicate Tracks(ms: seq<Annotated>, cur: seq<Annotated>, kept: seq<nat>) {
    && |kept| == |cur|
    && StrictlyIncreasing(kept)
    && (forall x :: 0 <= x < |kept| ==> kept[x] < |ms| && Grown(ms[kept[x]], cur[x]))
    && DroppedBlank(ms, kept)
    && LabelBag(cur) == LabelBag(ms)
  }

  lemma TracksStart(ms: seq<Annotated>)
    ensures Tracks(ms, ms, seq(|ms|, k => k))
  {
    var kept := seq(|ms|, k => k);
    forall k | 0 <= k < |ms| ensures k in kept { assert kept[k] == k; }
  }

  /** A text with a blank extension is blank. */
  lemma BlankPrefix(s: string, t: string)
    requires s <= t && IsBlank(t)
    ensures IsBlank(s)
  {
    forall k | 0 <= k < |s| ensures IsSpace(s[k]) { assert s[k] == t[k]; }
  }

  /** Replacing a mention by a further grown one, with the same labels, keeps the tracking. */
  lemma TracksUpdate(ms: seq<Annotated>, cur: seq<Annotated>, kept: seq<nat>, k: nat, g: Annotated)
    requires Tracks(ms, cur, kept) && k < |cur|
    requires Grown(ms[kept[k]], g) && g.labels == cur[k].labels
    ensures Tracks(ms, cur[k := g], kept)
  {
    var r := cur[k := g];
    assert LabelBag(r) == LabelBag(cur) by {
      LabelBagUpdate(cur, k, g);
      var bm := multiset(g.labels);
      assert bm == multiset(cur[k].labels);
      Cancel(LabelBag(r), LabelBag(cur), bm);
    }
    assert forall x :: 0 <= x < |kept| ==> kept[x] < |ms| && Grown(ms[kept[x]], r[x]) by {
      forall x | 0 <= x < |kept| ensures kept[x] < |ms| && Grown(ms[kept[x]], r[x]) {
        if x != k { assert r[x] == cur[x]; }
      }
    }
  }

  /** Moving the labels of mention `i` in front of those of mention `j`, and dropping `i`, keeps the bag. */
  lemma LabelBagFold(cur: seq<Annotated>, i: nat, j: nat, g: Annotated)
    requires i < j < |cur| && g.labels == cur[i].labels + cur[j].labels
    ensures LabelBag(RemoveAt(cur[j := g], i)) == LabelBag(cur)
  {
    var upd := cur[j := g];
    var r := RemoveAt(upd, i);
    var mi, mj := multiset(cur[i].labels), multiset(cur[j].labels);
    assert multiset(g.labels) == mi + mj;
    LabelBagUpdate(cur, j, g);
    assert upd[i] == cur[i];
    LabelBagRemove(upd, i);
    assert LabelBag(r) + (mi + mj) == LabelBag(cur) + (mi + mj);
    Cancel(LabelBag(r), LabelBag(cur), mi + mj);
  }

  /** Dropping position `i` of the kept indices keeps them increasing and keeps every other one. */
  lemma KeptRemove(kept: seq<nat>, i: nat)
    requires StrictlyIncreasing(kept) && i < |kept|
    ensures StrictlyIncreasing(RemoveAt(kept, i))
    ensures forall x :: 0 <= x < |kept| && x != i ==> kept[x] in RemoveAt(kept, i)
  {
    var kr := RemoveAt(kept, i);
    forall x, y | 0 <= x < y < |kr| ensures kr[x] < kr[y] {
      var x' := if x < i then x else x + 1;
      var y' := if y < i then y else y + 1;
      assert kr[x] == kept[x'] && kr[y] == kept[y'];
    }
    forall x | 0 <= x < |kept| && x != i ensures kept[x] in kr {
      if x < i { assert kr[x] == kept[x]; } else { assert kr[x - 1] == kept[x]; }
    }
  }

  /**
   * The fold: the blank mention at `i` leaves the list, its labels go in front of those of
   * the nested mention at `j`, which is grown to `g`.
   */
  lemma TracksFold(ms: seq<Annotated>, cur: seq<Annotated>, kept: seq<nat>, i: nat, j: nat, g: Annotated)
    requires Tracks(ms, cur, kept) && i < j < |cur|
    requires IsBlank(cur[i].text)
    requires Grown(ms[kept[j]], g) && g.labels == cur[i].labels + cur[j].labels
    ensures Tracks(ms, RemoveAt(cur[j := g], i), RemoveAt(kept, i))
  {
    var upd := cur[j := g];
    var r, kr := RemoveAt(upd, i), RemoveAt(kept, i);
    LabelBagFold(cur, i, j, g);
    KeptRemove(kept, i);
    BlankPrefix(ms[kept[i]].text, cur[i].text);
    DroppedRemove(ms, kept, i);
    FoldGrown(ms, cur, kept, i, j, g);
  }

  /** After the fold every kept mention is still a grown form of its original. */
  lemma FoldGrown(ms: seq<Annotated>, cur: seq<Annotated>, kept: seq<nat>, i: nat, j: nat, g: Annotated)
    requires |kept| == |cur| && i < j < |cur|
    requires forall x :: 0 <= x < |kept| ==> kept[x] < |ms| && Grown(ms[kept[x]], cur[x])
    requires kept[j] < |ms| && Grown(ms[kept[j]], g)
    ensures var r, kr := RemoveAt(cur[j := g], i), RemoveAt(kept, i);
      forall x :: 0 <= x < |kr| ==> kr[x] < |ms| && Grown(ms[kr[x]], r[x])
  {
    var upd := cur[j := g];
    var r, kr := RemoveAt(upd, i), RemoveAt(kept, i);
    forall x | 0 <= x < |kr| ensures kr[x] < |ms| && Grown(ms[kr[x]], r[x]) {
      var y := if x < i then x else x + 1;
      assert kr[x] == kept[y] && r[x] == upd[y];
      if y == j {
        assert upd[y] == g;
      } else {
        assert upd[y] == cur[y];
      }
    }
  }

  /** Every nesting count is zero: nothing is nested. */
  predicate Flat(ms: seq<Annotated>) {
    forall k :: 0 <= k < |ms| ==> ms[k].numLabels == 0
  }

  // ---------------------------------------------------------------------------
  // The pass
  // ---------------------------------------------------------------------------

  /** No mention after position `j` is nested. */
  predicate FlatAfter(ms: seq<Annotated>, j: int) {
    forall k :: 0 <= k < |ms| && j < k ==> ms[k].numLabels == 0
  }

  /** The nesting count at cursor `j`, or 0 once the cursor is off the list. */
  function NestingAt(ms: seq<Annotated>, j: int): nat {
    if 0 <= j < |ms| then ms[j].numLabels else 0
  }

  /**
   * The blank branch (lines 88-94) on the list: the nested mention at `j` uses up a level,
   * takes the labels of the blank mention at `i` in front of its own and its class if it
   * has none, and the blank mention leaves the list.
   */
  function Folded(mentions: seq<Annotated>, i: nat, j: nat): (r: seq<Annotated>)
    requires i < j < |mentions| && mentions[j].numLabels > 0
    ensures |r| == |mentions| - 1 && r[j - 1].numLabels == mentions[j].numLabels - 1
  {
    var n := mentions[j];
    RemoveAt(mentions[j := n.(
      numLabels := n.numLabels - 1,
      labels := mentions[i].labels + n.labels,
      cls := if n.cls == "" then mentions[i].cls else n.cls)], i)
  }

  /**
   * The other branch (lines 95-101) on the list: the nested mention at `j` uses up a
   * level and takes the class of the mention at `i` if it has none, and the mention at
   * `i` receives the nested text.
   */
  function Extended(mentions: seq<Annotated>, i: nat, j: nat, clitics: set<string>): (r: seq<Annotated>)
    requires i < j < |mentions| && mentions[j].numLabels > 0
    ensures |r| == |mentions| && r[j].numLabels == mentions[j].numLabels - 1
  {
    var n := mentions[j];
    mentions[i := Appended(mentions[i], n.text, clitics)][j := n.(
      numLabels := n.numLabels - 1,
      cls := if n.cls == "" then mentions[i].cls else n.cls)]
  }

  /**
   * One visit to the nested mention at `j`, with the mention before it at `j - 1` (the
   * loop's cursor `i`): the list after the branch, and the new `j`, which moves down past
   * a fold and again once the nested mention, now at the new `j`, has no level left.
   */
  function Step(mentions: seq<Annotated>, j: nat, clitics: set<string>): (r: (seq<Annotated>, int))
    requires 0 < j < |mentions| && mentions[j].numLabels > 0
    ensures -1 <= r.1 < |r.0| <= |mentions|
    ensures r.1 < j || (r.1 == j && NestingAt(r.0, r.1) < NestingAt(mentions, j))
  {
    var used := if mentions[j].numLabels == 1 then 1 else 0;
    if Strip(mentions[j - 1].text) == "" then (Folded(mentions, j - 1, j), j - 1 - used)
    else (Extended(mentions, j - 1, j, clitics), j - used)
  }

  /**
   * The loop of `merge_nested_labels` from cursor `j` on (with `i` at `j - 1`): a nested
   * mention at `j` is visited, a flat one passed by, until `j` reaches the first mention.
   */
  function MergeFrom(mentions: seq<Annotated>, j: int, clitics: set<string>): seq<Annotated>
    requires -1 <= j < |mentions|
    decreases j, NestingAt(mentions, j)
  {
    if j <= 0 then mentions
    else if mentions[j].numLabels > 0 then
      var (next, j') := Step(mentions, j, clitics);
      MergeFrom(next, j', clitics)
    else MergeFrom(mentions, j - 1, clitics)
  }

  /** What `merge_nested_labels` returns: the loop started on the last mention. */
  function NestedMerged(ms: seq<Annotated>, clitics: set<string>): seq<Annotated> {
    MergeFrom(ms, |ms| - 1, clitics)
  }

  /** A turn of the loop that visits the nested mention at `j`. */
  lemma MergeFromVisit(mentions: seq<Annotated>, j: int, clitics: set<string>, next: seq<Annotated>, j': int)
    requires 0 < j < |mentions| && mentions[j].numLabels > 0
    requires (next, j') == Step(mentions, j, clitics)
    ensures -1 <= j' < |next|
    ensures MergeFrom(mentions, j, clitics) == MergeFrom(next, j', clitics)
  {
  }

  /** A turn of the loop that passes by the flat mention at `j`. */
  lemma MergeFromPass(mentions: seq<Annotated>, j: int, clitics: set<string>)
    requires 0 < j < |mentions| && mentions[j].numLabels == 0
    ensures MergeFrom(mentions, j, clitics) == MergeFrom(mentions, j - 1, clitics)
  {
  }

  // ---------------------------------------------------------------------------
  // What the pass promises
  // ---------------------------------------------------------------------------

  /** The mentions right of the new `j` are flat when those right of `j` were. */
  lemma StepKeepsFlat(mentions: seq<Annotated>, j: nat, clitics: set<string>)
    requires 0 < j < |mentions| && mentions[j].numLabels > 0
    requires FlatAfter(mentions, j)
    ensures FlatAfter(Step(mentions, j, clitics).0, Step(mentions, j, clitics).1)
  {
  }

  /**
   * Every mention after the first comes out of the loop with no nesting left: the loop
   * runs until `j` reaches the first mention, and `j` only moves left past a mention
   * whose levels are used up.
   */
  lemma {:induction false} MergeFromFlatTail(mentions: seq<Annotated>, j: int, clitics: set<string>)
    requires -1 <= j < |mentions| && FlatAfter(mentions, j)
    ensures FlatAfter(MergeFrom(mentions, j, clitics), 0)
    decreases j, NestingAt(mentions, j)
  {
    if j > 0 {
      if mentions[j].numLabels > 0 {
        var (next, j') := Step(mentions, j, clitics);
        StepKeepsFlat(mentions, j, clitics);
        MergeFromVisit(mentions, j, clitics, next, j');
        MergeFromFlatTail(next, j', clitics);
      } else {
        MergeFromPass(mentions, j, clitics);
        MergeFromFlatTail(mentions, j - 1, clitics);
      }
    }
  }

  /**
   * After the pass only the first mention can still be nested (a fold with `i` on the
   * first mention ends the loop).
   */
  lemma NestedMergedFlatTail(ms: seq<Annotated>, clitics: set<string>)
    ensures FlatAfter(NestedMerged(ms, clitics), 0)
  {
    MergeFromFlatTail(ms, |ms| - 1, clitics);
  }

  /** Without nesting the loop only moves its cursors. */
  lemma {:induction false} MergeFromFlat(mentions: seq<Annotated>, j: int, clitics: set<string>)
    requires -1 <= j < |mentions| && Flat(mentions)
    ensures MergeFrom(mentions, j, clitics) == mentions
    decreases j
  {
    if j > 0 {
      MergeFromPass(mentions, j, clitics);
      MergeFromFlat(mentions, j - 1, clitics);
    }
  }

  /** A list without nesting comes back unchanged. */
  lemma NestedMergedFlat(ms: seq<Annotated>, clitics: set<string>)
    requires Flat(ms)
    ensures NestedMerged(ms, clitics) == ms
  {
    MergeFromFlat(ms, |ms| - 1, clitics);
  }

  /** The blank branch keeps the tracking invariant, without the blank mention's position. */
  lemma FoldedTracks(ms: seq<Annotated>, mentions: seq<Annotated>, kept: seq<nat>, i: nat, j: nat)
    requires i < j < |mentions| && mentions[j].numLabels > 0
    requires IsBlank(mentions[i].text) && Tracks(ms, mentions, kept)
    ensures Tracks(ms, Folded(mentions, i, j), RemoveAt(kept, i))
  {
    var before, n := mentions[i], mentions[j];
    var after := n.(
      numLabels := n.numLabels - 1,
      labels := before.labels + n.labels,
      cls := if n.cls == "" then before.cls else n.cls);
    assert Grown(ms[kept[j]], after) by {
      var fewer := n.(numLabels := n.numLabels - 1);
      assert Grown(ms[kept[j]], fewer);
      GrownLabels(ms[kept[j]], fewer, before.labels);
    }
    TracksFold(ms, mentions, kept, i, j, after);
  }

  /** The other branch keeps the tracking invariant: both records only grow. */
  lemma ExtendedTracks(ms: seq<Annotated>, mentions: seq<Annotated>, kept: seq<nat>, i: nat, j: nat, clitics: set<string>)
    requires i < j < |mentions| && mentions[j].numLabels > 0
    requires Tracks(ms, mentions, kept)
    ensures Tracks(ms, Extended(mentions, i, j, clitics), kept)
  {
    var m := mentions[i];
    var g := Appended(m, mentions[j].text, clitics);
    assert Grown(ms[kept[i]], g) by {
      GrownText(ms[kept[i]], m, g.text[|m.text|..]);
      assert g == m.(text := m.text + g.text[|m.text|..]);
    }
    TracksUpdate(ms, mentions, kept, i, g);
    var mid := mentions[i := g];
    var n := mentions[j];
    var after := n.(numLabels := n.numLabels - 1, cls := if n.cls == "" then m.cls else n.cls);
    assert mid[j] == n;
    TracksUpdate(ms, mid, kept, j, after);
  }

  /** A visit keeps the tracking invariant, for some positions of the input. */
  lemma StepTracks(ms: seq<Annotated>, mentions: seq<Annotated>, kept: seq<nat>, j: nat, clitics: set<string>)
    returns (kept': seq<nat>)
    requires 0 < j < |mentions| && mentions[j].numLabels > 0 && Tracks(ms, mentions, kept)
    ensures Tracks(ms, Step(mentions, j, clitics).0, kept')
  {
    StripShape(mentions[j - 1].text);
    if IsBlank(mentions[j - 1].text) {
      FoldedTracks(ms, mentions, kept, j - 1, j);
      kept' := RemoveAt(kept, j - 1);
    } else {
      ExtendedTracks(ms, mentions, kept, j - 1, j, clitics);
      kept' := kept;
    }
  }

  /** The rest of the loop keeps the tracking invariant. */
  lemma {:induction false} MergeFromTracks(ms: seq<Annotated>, mentions: seq<Annotated>, kept: seq<nat>, j: int, clitics: set<string>)
    returns (kept': seq<nat>)
    requires -1 <= j < |mentions| && Tracks(ms, mentions, kept)
    ensures Tracks(ms, MergeFrom(mentions, j, clitics), kept')
    decreases j, NestingAt(mentions, j)
  {
    if j <= 0 {
      kept' := kept;
    } else if mentions[j].numLabels > 0 {
      var (next, j') := Step(mentions, j, clitics);
      MergeFromVisit(mentions, j, clitics, next, j');
      var k := StepTracks(ms, mentions, kept, j, clitics);
      kept' := MergeFromTracks(ms, next, k, j', clitics);
    } else {
      MergeFromPass(mentions, j, clitics);
      kept' := MergeFromTracks(ms, mentions, kept, j - 1, clitics);
    }
  }

  /**
   * The result tracks the input: it is no longer; each of its mentions is the input's
   * mention at a kept position, in order and only grown; every mention left out was
   * blank; and the labels are those of the input, as a multiset.
   */
  lemma NestedMergedTracks(ms: seq<Annotated>, clitics: set<string>) returns (kept: seq<nat>)
    ensures |NestedMerged(ms, clitics)| <= |ms|
    ensures Tracks(ms, NestedMerged(ms, clitics), kept)
  {
    TracksStart(ms);
    kept := MergeFromTracks(ms, ms, seq(|ms|, k => k), |ms| - 1, clitics);
    PigeonKept(kept, |ms|);
  }

  /** Strictly increasing positions below `n` are at most `n` many. */
  lemma {:induction false} PigeonKept(kept: seq<nat>, n: nat)
    requires StrictlyIncreasing(kept) && forall x :: 0 <= x < |kept| ==> kept[x] < n
    ensures |kept| <= n
    decreases n
  {
    if kept != [] {
      var init := kept[..|kept| - 1];
      assert forall x :: 0 <= x < |init| ==> init[x] < kept[|kept| - 1] < n;
      PigeonKept(init, n - 1);
    }
  }

  /**
   * A blank mention in front of a nested one is folded into it: its label goes in front,
   * the empty class is filled in, the level is used up, and the blank mention is gone.
   */
  lemma FoldExample()
    ensures NestedMerged([Annotated(0, [3], 0, "np", ""), Annotated(1, [5], 1, "np", "Budi")], {})
         == [Annotated(1, [3, 5], 0, "np", "Budi")]
  {
    var ms := [Annotated(0, [3], 0, "np", ""), Annotated(1, [5], 1, "np", "Budi")];
    var folded := [Annotated(1, [3, 5], 0, "np", "Budi")];
    assert Strip(ms[0].text) == "";
    var grown := Annotated(1, [3, 5], 0, "np", "Budi");
    assert [3] + [5] == [3, 5];
    assert ms[1].(numLabels := 0, labels := [3] + [5], cls := "np") == grown;
    assert ms[1 := grown] == [ms[0], grown];
    assert RemoveAt([ms[0], grown], 0) == folded;
    assert Folded(ms, 0, 1) == folded;
    assert Step(ms, 1, {}) == (folded, -1);
  }

  /**
   * A mention in front of a nested one receives its text after a space, and the nested
   * mention keeps its labels, uses up its level and takes the outer class.
   */
  lemma ExtendExample()
    ensures NestedMerged([Annotated(0, [3], 0, "np", "rumah"), Annotated(1, [5], 1, "", "Budi")], {})
         == [Annotated(0, [3], 0, "np", "rumah Budi"), Annotated(1, [5], 0, "np", "Budi")]
  {
    var ms := [Annotated(0, [3], 0, "np", "rumah"), Annotated(1, [5], 1, "", "Budi")];
    var out := [Annotated(0, [3], 0, "np", "rumah Budi"), Annotated(1, [5], 0, "np", "Budi")];
    assert Strip(ms[0].text) != "" by { StripUnchanged(ms[0].text); }
    assert Appended(ms[0], "Budi", {}) == out[0] by { NotInRumah(); }
    assert Extended(ms, 0, 1, {}) == out;
    assert Step(ms, 1, {}) == (out, 0);
    MergeFromVisit(ms, 1, {}, out, 0);
  }

  lemma NotInRumah()
    ensures !IsSubstring("Budi", "rumah")
  {
    forall k | 0 <= k <= |"rumah"| - |"Budi"| ensures !("Budi" <= "rumah"[k..]) {
      assert "rumah"[k] != 'B';
    }
  }

  // ---------------------------------------------------------------------------
  // The loop
  // ---------------------------------------------------------------------------

  /**
   * `merge_nested_labels`, with the module-level `CLITICS` as the parameter `clitics`:
   * the loop computes `NestedMerged`. The cursors stay one apart, so the reset of `i` at
   * the head of the loop never fires. The result tracks the input (`NestedMergedTracks`),
   * only its first mention can still be nested (`NestedMergedFlatTail`), and a list
   * without nesting comes back unchanged (`NestedMergedFlat`).
   */
  method MergeNestedLabels(ms: seq<Annotated>, clitics: set<string>) returns (r: seq<Annotated>, ghost kept: seq<nat>)
    ensures r == NestedMerged(ms, clitics)
    ensures |r| <= |ms| && Tracks(ms, r, kept)
  {
    var mentions := ms;
    var j := |mentions| - 1;
    var i := |mentions| - 2;
    while j > 0 && i >= 0
      invariant -1 <= j < |mentions| && i == j - 1
      invariant MergeFrom(mentions, j, clitics) == NestedMerged(ms, clitics)
      decreases j, NestingAt(mentions, j)
    {
      if i >= j {
        i := j - 1;
      }
      if mentions[j].numLabels > 0 {
        ghost var (j0, before) := (j, mentions);
        mentions, i, j := Unnest(mentions, i, j, clitics);
        MergeFromVisit(before, j0, clitics, mentions, j);
      } else {
        MergeFromPass(mentions, j, clitics);
        j := j - 1;
        i := i - 1;
      }
    }
    r := mentions;
    kept := NestedMergedTracks(ms, clitics);
  }

  /**
   * The loop's body at a nested mention `j`, with the mention before it at `i`: the
   * records `before` and `after` are changed and written back, in either branch, then
   * the cursors move.
   */
  method Unnest(mentions: seq<Annotated>, i: int, j: int, clitics: set<string>)
    returns (next: seq<Annotated>, i': int, j': int)
    requires 0 <= i == j - 1 && j < |mentions| && mentions[j].numLabels > 0
    ensures (next, j') == Step(mentions, j, clitics) && i' == j' - 1
  {
    var before, after := mentions[i], mentions[j];
    after := after.(numLabels := after.numLabels - 1);
    next := mentions;
    i', j' := i, j;
    if Strip(before.text) == "" {
      after := after.(labels := before.labels + after.labels);
      if after.cls == "" {
        after := after.(cls := before.cls);
      }
      next := RemoveAt(next[j := after], i);
      i', j' := i' - 1, j' - 1;
    } else {
      if !IsSubstring(after.text, before.text) {
        if after.text in clitics {
          before := before.(text := before.text + after.text);
        } else {
          before := before.(text := before.text + " " + after.text);
        }
        next := next[i := before];
      }
      next := next[j := after];
    }
    if after.cls == "" {
      after := after.(cls := before.cls);
      next := next[j' := after];
    }
    assert Strip(mentions[i].text) == "" ==> next == Folded(mentions, i, j);
    assert Strip(mentions[i].text) != "" ==> next == Extended(mentions, i, j, clitics);
    if next[j'].numLabels == 0 {
      i', j' := i' - 1, j' - 1;
    }
  }

  /**
   * Mention `m` after the nested text `t` is added to it: unchanged when it already
   * contains `t`, else `t` appended directly after a clitic and after a space otherwise.
   */
  function Appended(m: Annotated, t: string, clitics: set<string>): (r: Annotated)
    ensures r.(text := m.text) == m && m.text <= r.text
  {
    if IsSubstring(t, m.text) then m
    else if t in clitics then m.(text := m.text + t)
    else m.(text := m.text + " " + t)
  }

  /** After the append the outer text contains the nested one. */
  lemma AppendedContains(m: Annotated, t: string, clitics: set<string>)
    ensures IsSubstring(t, Appended(m, t, clitics).text)
  {
    if !IsSubstring(t, m.text) {
      var r := Appended(m, t, clitics).text;
      var k := if t in clitics then |m.text| else |m.text| + 1;
      assert r[k..] == t;
    }
  }
}
