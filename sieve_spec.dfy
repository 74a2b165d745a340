/**
 * The cluster state of the multi-pass sieve (src/mpsieve.py) and its six passes, as
 * functions from the mention list before a pass to the list after it. The class in
 * mpsieve.dfy runs the passes imperatively and is proved to compute these functions;
 * the lemmas here state what the passes guarantee.
 *
 * The linguistic tests (FeatureUtils, PairFeatureUtils) are not part of this model: they
 * are the fields of an `Oracle`, total functions of a mention's read-only attributes, so
 * nothing a pass does to `cluster` can change their answers.
 */
module SieveSpec {
  import opened Mentions

  datatype Oracle = Oracle(
    isPronoun: Attrs -> bool,
    isClitic: Attrs -> bool,
    isLocation: Attrs -> bool,
    isWordClassMismatch: (Attrs, Attrs) -> bool,
    isExactMatch: (Attrs, Attrs) -> bool,
    isAppositive: (Attrs, Attrs, Sents) -> bool,
    isCopulative: (Attrs, Attrs, Sents) -> bool,
    isAbbreviation: (Attrs, Attrs) -> bool,
    isDemonstrative: (Attrs, Attrs) -> bool,
    isNameShortened: (Attrs, Attrs) -> bool,
    isHeadMatch: (Attrs, Attrs) -> bool,
    isFullProperHeadMatch: (Attrs, Attrs) -> bool,
    isRelaxedMatch: (Attrs, Attrs) -> bool)

  /** Pass 2's test: appositive, copulative (both with the sentence context) or abbreviation. */
  function PreciseConstruct(o: Oracle, sents: Sents): (Attrs, Attrs) -> bool {
    (x: Attrs, y: Attrs) => o.isAppositive(x, y, sents) || o.isCopulative(x, y, sents) || o.isAbbreviation(x, y)
  }

  /** Pass 3's first test: demonstrative or shortened name. */
  function DemonstrativeOrShortened(o: Oracle): (Attrs, Attrs) -> bool {
    (x: Attrs, y: Attrs) => o.isDemonstrative(x, y) || o.isNameShortened(x, y)
  }

  /** `is_same_cluster` */
  predicate IsSameCluster(a: Mention, b: Mention) {
    a.cluster == b.cluster
  }

  /** The distinct cluster ids in use. */
  function ClusterIds(cs: seq<Mention>): set<int> {
    set m | m in cs :: m.cluster
  }

  /** `r` is `cs` with, at most, other `cluster` values. */
  predicate SameMentions(cs: seq<Mention>, r: seq<Mention>) {
    |r| == |cs| && forall k :: 0 <= k < |cs| ==> r[k] == cs[k].(cluster := r[k].cluster)
  }

  /**
   * `r` is a coarsening of `cs`: no mention record changes except in `cluster`, mentions
   * that shared a cluster still do, and no cluster id is new.
   */
  predicate Coarsens(cs: seq<Mention>, r: seq<Mention>) {
    && SameMentions(cs, r)
    && (forall x, y :: 0 <= x < |cs| && 0 <= y < |cs| && cs[x].cluster == cs[y].cluster ==> r[x].cluster == r[y].cluster)
    && ClusterIds(r) <= ClusterIds(cs)
  }

  lemma CoarsensTransitive(a: seq<Mention>, b: seq<Mention>, c: seq<Mention>)
    requires Coarsens(a, b) && Coarsens(b, c)
    ensures Coarsens(a, c)
  {
  }

  /** No pronoun shares its cluster with another mention. */
  predicate PronounsIsolated(cs: seq<Mention>, isPronoun: Attrs -> bool) {
    forall p, k :: 0 <= p < |cs| && 0 <= k < |cs| && p != k && isPronoun(cs[p].attrs) ==> cs[p].cluster != cs[k].cluster
  }

  /** Every pronoun has the same cluster in `r` as in `cs`. */
  predicate KeepsPronouns(cs: seq<Mention>, r: seq<Mention>, isPronoun: Attrs -> bool)
    requires |r| == |cs|
  {
    forall p :: 0 <= p < |cs| && isPronoun(cs[p].attrs) ==> r[p].cluster == cs[p].cluster
  }

  // ---------------------------------------------------------------------------
  // The merger
  // ---------------------------------------------------------------------------

  /**
   * `merge_cluster(cs[a], cs[b])`: every mention that is in b's cluster moves to a's
   * cluster, by a rescan of the whole list.
   */
  function Merged(cs: seq<Mention>, a: nat, b: nat): (r: seq<Mention>)
    requires a < |cs| && b < |cs|
    ensures SameMentions(cs, r)
    ensures IsSameCluster(r[a], r[b]) && r[a].cluster == cs[a].cluster
    ensures forall k :: 0 <= k < |cs| && cs[k].cluster == cs[b].cluster ==> r[k].cluster == cs[a].cluster
    ensures forall k :: 0 <= k < |cs| && cs[k].cluster != cs[b].cluster ==> r[k] == cs[k]
    ensures Coarsens(cs, r)
    ensures IsSameCluster(cs[a], cs[b]) ==> r == cs
  {
    seq(|cs|, k requires 0 <= k < |cs| =>
      if cs[k].cluster == cs[b].cluster then cs[k].(cluster := cs[a].cluster) else cs[k])
  }

  /** A second merge of the same pair changes nothing. */
  lemma MergeIdempotent(cs: seq<Mention>, a: nat, b: nat)
    requires a < |cs| && b < |cs|
    ensures Merged(Merged(cs, a, b), a, b) == Merged(cs, a, b)
  {
  }

  /** Merging (a, b) and then (b, c) puts all three in one cluster. */
  lemma MergeTransitive(cs: seq<Mention>, a: nat, b: nat, c: nat)
    requires a < |cs| && b < |cs| && c < |cs|
    ensures var r := Merged(Merged(cs, a, b), b, c);
      r[a].cluster == r[b].cluster == r[c].cluster
  {
  }

  /** A merge of two non-pronouns leaves every pronoun where it was, and alone. */
  lemma MergedKeepsPronouns(cs: seq<Mention>, a: nat, b: nat, isPronoun: Attrs -> bool)
    requires a < |cs| && b < |cs|
    requires !isPronoun(cs[a].attrs) && !isPronoun(cs[b].attrs)
    requires PronounsIsolated(cs, isPronoun)
    ensures KeepsPronouns(cs, Merged(cs, a, b), isPronoun)
    ensures PronounsIsolated(Merged(cs, a, b), isPronoun)
  {
    var r := Merged(cs, a, b);
    forall p, k | 0 <= p < |r| && 0 <= k < |r| && p != k && isPronoun(r[p].attrs)
      ensures r[p].cluster != r[k].cluster
    {
      assert r[p].attrs == cs[p].attrs;
      assert p != a && p != b;
    }
  }

  // ---------------------------------------------------------------------------
  // Passes 1, 2, 4 and 5: the exhaustive pairwise scan
  // ---------------------------------------------------------------------------

  /**
   * The inner loop for antecedent `i`, from candidate `j` on: skip a candidate already
   * in i's cluster or that is a pronoun, merge on `matches`, and go on after a merge.
   */
  function MergeScan(cs: seq<Mention>, i: nat, j: nat, isPronoun: Attrs -> bool,
                     matches: (Attrs, Attrs) -> bool): (r: seq<Mention>)
    requires i < |cs| && i <= j <= |cs|
    ensures SameMentions(cs, r)
    decreases |cs| - j
  {
    if j == |cs| then cs
    else if IsSameCluster(cs[i], cs[j]) || isPronoun(cs[j].attrs) then MergeScan(cs, i, j + 1, isPronoun, matches)
    else if matches(cs[i].attrs, cs[j].attrs) then MergeScan(Merged(cs, i, j), i, j + 1, isPronoun, matches)
    else MergeScan(cs, i, j + 1, isPronoun, matches)
  }

  /** The outer loop from antecedent `i` on: pronoun antecedents are skipped. */
  function PairwiseFrom(cs: seq<Mention>, i: nat, isPronoun: Attrs -> bool,
                        matches: (Attrs, Attrs) -> bool): (r: seq<Mention>)
    requires i <= |cs|
    ensures SameMentions(cs, r)
    decreases |cs| - i
  {
    if i == |cs| then cs
    else if isPronoun(cs[i].attrs) then PairwiseFrom(cs, i + 1, isPronoun, matches)
    else PairwiseFrom(MergeScan(cs, i, i, isPronoun, matches), i + 1, isPronoun, matches)
  }

  /** One step of the inner scan at candidate `j`. */
  function MergeStep(cs: seq<Mention>, i: nat, j: nat, isPronoun: Attrs -> bool,
                     matches: (Attrs, Attrs) -> bool): (r: seq<Mention>)
    requires i < |cs| && j < |cs|
  {
    if IsSameCluster(cs[i], cs[j]) || isPronoun(cs[j].attrs) || !matches(cs[i].attrs, cs[j].attrs) then cs
    else Merged(cs, i, j)
  }

  lemma {:induction false} MergeScanCoarsens(cs: seq<Mention>, i: nat, j: nat, isPronoun: Attrs -> bool,
                                             matches: (Attrs, Attrs) -> bool)
    requires i < |cs| && i <= j <= |cs|
    ensures Coarsens(cs, MergeScan(cs, i, j, isPronoun, matches))
    decreases |cs| - j
  {
    if j < |cs| {
      var next := MergeStep(cs, i, j, isPronoun, matches);
      var r := MergeScan(next, i, j + 1, isPronoun, matches);
      assert MergeScan(cs, i, j, isPronoun, matches) == r;
      MergeScanCoarsens(next, i, j + 1, isPronoun, matches);
      assert Coarsens(cs, next);
      CoarsensTransitive(cs, next, r);
    }
  }

  /** Each of passes 1, 2, 4 and 5 only coarsens the partition. */
  lemma {:induction false} PairwiseFromCoarsens(cs: seq<Mention>, i: nat, isPronoun: Attrs -> bool,
                                                matches: (Attrs, Attrs) -> bool)
    requires i <= |cs|
    ensures Coarsens(cs, PairwiseFrom(cs, i, isPronoun, matches))
    decreases |cs| - i
  {
    if i < |cs| {
      var next := if isPronoun(cs[i].attrs) then cs else MergeScan(cs, i, i, isPronoun, matches);
      if !isPronoun(cs[i].attrs) { MergeScanCoarsens(cs, i, i, isPronoun, matches); }
      PairwiseFromCoarsens(next, i + 1, isPronoun, matches);
      CoarsensTransitive(cs, next, PairwiseFrom(next, i + 1, isPronoun, matches));
    }
  }

  lemma {:induction false} MergeScanKeepsPronouns(cs: seq<Mention>, i: nat, j: nat, isPronoun: Attrs -> bool,
                                                  matches: (Attrs, Attrs) -> bool)
    requires i < |cs| && i <= j <= |cs|
    requires !isPronoun(cs[i].attrs) && PronounsIsolated(cs, isPronoun)
    ensures var r := MergeScan(cs, i, j, isPronoun, matches);
      KeepsPronouns(cs, r, isPronoun) && PronounsIsolated(r, isPronoun)
    decreases |cs| - j
  {
    if j < |cs| {
      var next := MergeStep(cs, i, j, isPronoun, matches);
      if next != cs { MergedKeepsPronouns(cs, i, j, isPronoun); }
      assert next[i].attrs == cs[i].attrs;
      MergeScanKeepsPronouns(next, i, j + 1, isPronoun, matches);
    }
  }

  /**
   * If no pronoun shares its cluster (as with the initial clusters, one per mention),
   * passes 1, 2, 4 and 5 leave every pronoun's cluster unchanged.
   */
  lemma {:induction false} PairwiseFromKeepsPronouns(cs: seq<Mention>, i: nat, isPronoun: Attrs -> bool,
                                                     matches: (Attrs, Attrs) -> bool)
    requires i <= |cs| && PronounsIsolated(cs, isPronoun)
    ensures var r := PairwiseFrom(cs, i, isPronoun, matches);
      KeepsPronouns(cs, r, isPronoun) && PronounsIsolated(r, isPronoun)
    decreases |cs| - i
  {
    if i < |cs| {
      var next := if isPronoun(cs[i].attrs) then cs else MergeScan(cs, i, i, isPronoun, matches);
      if !isPronoun(cs[i].attrs) { MergeScanKeepsPronouns(cs, i, i, isPronoun, matches); }
      PairwiseFromKeepsPronouns(next, i + 1, isPronoun, matches);
    }
  }

  lemma {:induction false} MergeScanJoins(cs: seq<Mention>, i: nat, j: nat, isPronoun: Attrs -> bool,
                                          matches: (Attrs, Attrs) -> bool)
    requires i < |cs| && i <= j <= |cs|
    ensures var r := MergeScan(cs, i, j, isPronoun, matches);
      forall y :: j <= y < |cs| && !isPronoun(cs[y].attrs) && matches(cs[i].attrs, cs[y].attrs) ==>
        r[i].cluster == r[y].cluster
    decreases |cs| - j
  {
    if j < |cs| {
      var next := MergeStep(cs, i, j, isPronoun, matches);
      var r := MergeScan(next, i, j + 1, isPronoun, matches);
      assert MergeScan(cs, i, j, isPronoun, matches) == r;
      MergeStepJoins(cs, i, j, isPronoun, matches);
      MergeScanJoins(next, i, j + 1, isPronoun, matches);
      MergeScanCoarsens(next, i, j + 1, isPronoun, matches);
      forall y | j <= y < |cs| && !isPronoun(cs[y].attrs) && matches(cs[i].attrs, cs[y].attrs)
        ensures r[i].cluster == r[y].cluster
      {
        if y > j {
          assert next[y].attrs == cs[y].attrs && next[i].attrs == cs[i].attrs;
        }
      }
    }
  }

  /** One step of the scan leaves `i` and `j` in one cluster when `j` is a non-pronoun that `matches` accepts. */
  lemma MergeStepJoins(cs: seq<Mention>, i: nat, j: nat, isPronoun: Attrs -> bool, matches: (Attrs, Attrs) -> bool)
    requires i < |cs| && j < |cs|
    ensures var next := MergeStep(cs, i, j, isPronoun, matches);
      && SameMentions(cs, next)
      && (!isPronoun(cs[j].attrs) && matches(cs[i].attrs, cs[j].attrs) ==> next[i].cluster == next[j].cluster)
  {
  }

  /**
   * Completeness of passes 1, 2, 4 and 5: two non-pronoun mentions on which the pass's
   * test holds (the earlier one as antecedent) end in the same cluster.
   */
  lemma {:induction false} PairwiseFromJoins(cs: seq<Mention>, i: nat, isPronoun: Attrs -> bool,
                                             matches: (Attrs, Attrs) -> bool)
    requires i <= |cs|
    ensures var r := PairwiseFrom(cs, i, isPronoun, matches);
      forall x, y :: (i <= x <= y < |cs| && !isPronoun(cs[x].attrs) && !isPronoun(cs[y].attrs)
                      && matches(cs[x].attrs, cs[y].attrs)) ==> r[x].cluster == r[y].cluster
    decreases |cs| - i
  {
    if i < |cs| {
      var next := if isPronoun(cs[i].attrs) then cs else MergeScan(cs, i, i, isPronoun, matches);
      var r := PairwiseFrom(next, i + 1, isPronoun, matches);
      assert PairwiseFrom(cs, i, isPronoun, matches) == r;
      if !isPronoun(cs[i].attrs) { MergeScanJoins(cs, i, i, isPronoun, matches); }
      PairwiseFromJoins(next, i + 1, isPronoun, matches);
      PairwiseFromCoarsens(next, i + 1, isPronoun, matches);
      forall x, y | i <= x <= y < |cs| && !isPronoun(cs[x].attrs) && !isPronoun(cs[y].attrs)
                    && matches(cs[x].attrs, cs[y].attrs)
        ensures r[x].cluster == r[y].cluster
      {
        assert next[x].attrs == cs[x].attrs && next[y].attrs == cs[y].attrs;
      }
    }
  }

  // ---------------------------------------------------------------------------
  // Pass 3: strict head match, first match wins
  // ---------------------------------------------------------------------------

  /**
   * Pass 3's inner loop for antecedent `i` from candidate `j` on: the first candidate that
   * is not skipped and passes `strong` or, failing that, `head` is merged, and the loop
   * stops.
   */
  function FirstMatchScan(cs: seq<Mention>, i: nat, j: nat, isPronoun: Attrs -> bool,
                          strong: (Attrs, Attrs) -> bool, head: (Attrs, Attrs) -> bool): (r: seq<Mention>)
    requires i < |cs| && i <= j <= |cs|
    ensures SameMentions(cs, r)
    decreases |cs| - j
  {
    if j == |cs| then cs
    else if IsSameCluster(cs[i], cs[j]) || isPronoun(cs[j].attrs) then FirstMatchScan(cs, i, j + 1, isPronoun, strong, head)
    else if strong(cs[i].attrs, cs[j].attrs) then Merged(cs, i, j)
    else if head(cs[i].attrs, cs[j].attrs) then Merged(cs, i, j)
    else FirstMatchScan(cs, i, j + 1, isPronoun, strong, head)
  }

  function FirstMatchFrom(cs: seq<Mention>, i: nat, isPronoun: Attrs -> bool,
                          strong: (Attrs, Attrs) -> bool, head: (Attrs, Attrs) -> bool): (r: seq<Mention>)
    requires i <= |cs|
    ensures SameMentions(cs, r)
    decreases |cs| - i
  {
    if i == |cs| then cs
    else if isPronoun(cs[i].attrs) then FirstMatchFrom(cs, i + 1, isPronoun, strong, head)
    else FirstMatchFrom(FirstMatchScan(cs, i, i, isPronoun, strong, head), i + 1, isPronoun, strong, head)
  }

  /** Candidate `k` is one pass 3 would merge with antecedent `i`. */
  predicate Qualifies(cs: seq<Mention>, i: nat, k: nat, isPronoun: Attrs -> bool,
                      strong: (Attrs, Attrs) -> bool, head: (Attrs, Attrs) -> bool)
    requires i < |cs| && k < |cs|
  {
    && !IsSameCluster(cs[i], cs[k])
    && !isPronoun(cs[k].attrs)
    && (strong(cs[i].attrs, cs[k].attrs) || head(cs[i].attrs, cs[k].attrs))
  }

  /** The lowest candidate from `j` on that qualifies for antecedent `i`, or `|cs|` if none does. */
  function FirstQualifier(cs: seq<Mention>, i: nat, j: nat, isPronoun: Attrs -> bool,
                          strong: (Attrs, Attrs) -> bool, head: (Attrs, Attrs) -> bool): (k: nat)
    requires i < |cs| && j <= |cs|
    ensures j <= k <= |cs|
    ensures k < |cs| ==> Qualifies(cs, i, k, isPronoun, strong, head)
    ensures forall l :: j <= l < k ==> !Qualifies(cs, i, l, isPronoun, strong, head)
    decreases |cs| - j
  {
    if j == |cs| || Qualifies(cs, i, j, isPronoun, strong, head) then j
    else FirstQualifier(cs, i, j + 1, isPronoun, strong, head)
  }

  /**
   * First match wins: the inner loop of pass 3 performs exactly one merge, with the
   * lowest qualifying candidate, and changes nothing when no candidate qualifies.
   */
  lemma {:induction false} FirstMatchWins(cs: seq<Mention>, i: nat, j: nat, isPronoun: Attrs -> bool,
                                          strong: (Attrs, Attrs) -> bool, head: (Attrs, Attrs) -> bool)
    requires i < |cs| && i <= j <= |cs|
    ensures var k := FirstQualifier(cs, i, j, isPronoun, strong, head);
      FirstMatchScan(cs, i, j, isPronoun, strong, head) == if k < |cs| then Merged(cs, i, k) else cs
    decreases |cs| - j
  {
    if j < |cs| && !Qualifies(cs, i, j, isPronoun, strong, head) {
      FirstMatchWins(cs, i, j + 1, isPronoun, strong, head);
    }
  }

  lemma {:induction false} FirstMatchScanCoarsens(cs: seq<Mention>, i: nat, j: nat, isPronoun: Attrs -> bool,
                                                  strong: (Attrs, Attrs) -> bool, head: (Attrs, Attrs) -> bool)
    requires i < |cs| && i <= j <= |cs|
    ensures var r := FirstMatchScan(cs, i, j, isPronoun, strong, head);
      Coarsens(cs, r) && (!isPronoun(cs[i].attrs) && PronounsIsolated(cs, isPronoun) ==>
                           KeepsPronouns(cs, r, isPronoun) && PronounsIsolated(r, isPronoun))
    decreases |cs| - j
  {
    if j < |cs| {
      if IsSameCluster(cs[i], cs[j]) || isPronoun(cs[j].attrs) || !Qualifies(cs, i, j, isPronoun, strong, head) {
        FirstMatchScanCoarsens(cs, i, j + 1, isPronoun, strong, head);
      } else if !isPronoun(cs[i].attrs) && PronounsIsolated(cs, isPronoun) {
        MergedKeepsPronouns(cs, i, j, isPronoun);
      }
    }
  }

  /**
   * Pass 3 only coarsens the partition and, when pronouns start out alone, leaves every
   * pronoun's cluster unchanged.
   */
  lemma {:induction false} FirstMatchFromCoarsens(cs: seq<Mention>, i: nat, isPronoun: Attrs -> bool,
                                                  strong: (Attrs, Attrs) -> bool, head: (Attrs, Attrs) -> bool)
    requires i <= |cs|
    ensures var r := FirstMatchFrom(cs, i, isPronoun, strong, head);
      Coarsens(cs, r) && (PronounsIsolated(cs, isPronoun) ==>
                           KeepsPronouns(cs, r, isPronoun) && PronounsIsolated(r, isPronoun))
    decreases |cs| - i
  {
    if i < |cs| {
      var next := if isPronoun(cs[i].attrs) then cs else FirstMatchScan(cs, i, i, isPronoun, strong, head);
      if !isPronoun(cs[i].attrs) { FirstMatchScanCoarsens(cs, i, i, isPronoun, strong, head); }
      FirstMatchFromCoarsens(next, i + 1, isPronoun, strong, head);
      CoarsensTransitive(cs, next, FirstMatchFrom(next, i + 1, isPronoun, strong, head));
    }
  }

  // ---------------------------------------------------------------------------
  // Pass 6: pronoun resolution by a right-to-left two-cursor walk
  // ---------------------------------------------------------------------------

  /**
   * Antecedent `a` may be given to pronoun candidate `c`: the candidate is not a clitic
   * right next to it, and the antecedent is neither a location nor a pronoun nor of a
   * mismatching word class.
   */
  predicate Eligible(o: Oracle, cs: seq<Mention>, c: nat, a: nat)
    requires a < c < |cs|
  {
    && !(o.isClitic(cs[c].attrs) && c - a <= 1)
    && !o.isLocation(cs[a].attrs)
    && !o.isPronoun(cs[a].attrs)
    && !o.isWordClassMismatch(cs[c].attrs, cs[a].attrs)
  }

  /**
   * The loop of pass 6 from cursor values `c` (candidate) and `a` (antecedent). A link
   * copies the antecedent's cluster into the candidate alone (no merge) and moves both
   * cursors down by one; the walk ends as soon as either cursor runs out.
   */
  function PronounPassFrom(cs: seq<Mention>, c: int, a: int, o: Oracle): (r: seq<Mention>)
    requires c < |cs| && a < |cs|
    ensures SameMentions(cs, r)
    ensures forall k :: 0 <= k < |cs| && c < k ==> r[k] == cs[k]
    decreases c, a
  {
    if c <= 0 || a < 0 then cs
    else if c <= a then PronounPassFrom(cs, c, c - 1, o)
    else if o.isPronoun(cs[c].attrs) then
      if !Eligible(o, cs, c, a) then PronounPassFrom(cs, c, a - 1, o)
      else PronounPassFrom(cs[c := cs[c].(cluster := cs[a].cluster)], c - 1, a - 1, o)
    else PronounPassFrom(cs, c - 1, c - 2, o)
  }

  function PronounPass(cs: seq<Mention>, o: Oracle): (r: seq<Mention>)
    ensures SameMentions(cs, r)
  {
    PronounPassFrom(cs, |cs| - 1, |cs| - 2, o)
  }

  /** Mention `k` is a pronoun and `v` is the cluster of an eligible antecedent of it. */
  predicate LinkedToAntecedent(o: Oracle, cs: seq<Mention>, k: nat, v: int)
    requires k < |cs|
  {
    o.isPronoun(cs[k].attrs) && exists a :: 0 <= a < k && Eligible(o, cs, k, a) && cs[a].cluster == v
  }

  lemma {:induction false} PronounPassFromLinks(cs: seq<Mention>, c: int, a: int, o: Oracle)
    requires c < |cs| && a < |cs|
    ensures var r := PronounPassFrom(cs, c, a, o);
      forall k :: 0 <= k < |cs| ==> r[k].cluster == cs[k].cluster || LinkedToAntecedent(o, cs, k, r[k].cluster)
    decreases c, a
  {
    if c <= 0 || a < 0 {
    } else if c <= a {
      PronounPassFromLinks(cs, c, c - 1, o);
    } else if o.isPronoun(cs[c].attrs) {
      if !Eligible(o, cs, c, a) {
        PronounPassFromLinks(cs, c, a - 1, o);
      } else {
        var next := cs[c := cs[c].(cluster := cs[a].cluster)];
        var r := PronounPassFrom(next, c - 1, a - 1, o);
        PronounPassFromLinks(next, c - 1, a - 1, o);
        forall k | 0 <= k < |cs| && r[k].cluster != cs[k].cluster
          ensures LinkedToAntecedent(o, cs, k, r[k].cluster)
        {
          if k == c {
            assert Eligible(o, cs, k, a);
          } else if k < c {
            assert LinkedToAntecedent(o, next, k, r[k].cluster);
            var b :| 0 <= b < k && Eligible(o, next, k, b) && next[b].cluster == r[k].cluster;
            assert Eligible(o, cs, k, b);
          }
        }
      }
    } else {
      PronounPassFromLinks(cs, c - 1, c - 2, o);
    }
  }

  /**
   * What pass 6 may change: only the cluster of a pronoun, and only to the cluster of an
   * earlier mention that is eligible for it; so it uses no cluster id that was not in use.
   */
  lemma PronounPassLinks(cs: seq<Mention>, o: Oracle)
    ensures var r := PronounPass(cs, o);
      && (forall k :: 0 <= k < |cs| ==> r[k].cluster == cs[k].cluster || LinkedToAntecedent(o, cs, k, r[k].cluster))
      && ClusterIds(r) <= ClusterIds(cs)
  {
    var r := PronounPass(cs, o);
    PronounPassFromLinks(cs, |cs| - 1, |cs| - 2, o);
    forall v | v in ClusterIds(r) ensures v in ClusterIds(cs) {
      var m :| m in r && m.cluster == v;
      var k :| 0 <= k < |r| && r[k] == m;
      if r[k].cluster != cs[k].cluster {
        var b :| 0 <= b < k && Eligible(o, cs, k, b) && cs[b].cluster == v;
        assert cs[b] in cs;
      } else {
        assert cs[k] in cs;
      }
    }
  }

  /**
   * When every pronoun starts pass 6 in a cluster of its own (as passes 1 to 5 leave it,
   * from distinct initial clusters), pass 6 too only coarsens the partition.
   */
  lemma PronounPassCoarsens(cs: seq<Mention>, o: Oracle)
    requires PronounsIsolated(cs, o.isPronoun)
    ensures Coarsens(cs, PronounPass(cs, o))
  {
    var r := PronounPass(cs, o);
    PronounPassLinks(cs, o);
    forall x, y | 0 <= x < |cs| && 0 <= y < |cs| && cs[x].cluster == cs[y].cluster
      ensures r[x].cluster == r[y].cluster
    {
      if x != y {
        assert !o.isPronoun(cs[x].attrs) && !o.isPronoun(cs[y].attrs);
      }
    }
  }

  // ---------------------------------------------------------------------------
  // The whole run
  // ---------------------------------------------------------------------------

  /** Passes 1 to 5, in their fixed order. */
  function Passes1To5(cs: seq<Mention>, o: Oracle, sents: Sents): (r: seq<Mention>)
    ensures SameMentions(cs, r)
  {
    var c1 := PairwiseFrom(cs, 0, o.isPronoun, o.isExactMatch);
    var c2 := PairwiseFrom(c1, 0, o.isPronoun, PreciseConstruct(o, sents));
    var c3 := FirstMatchFrom(c2, 0, o.isPronoun, DemonstrativeOrShortened(o), o.isHeadMatch);
    var c4 := PairwiseFrom(c3, 0, o.isPronoun, o.isFullProperHeadMatch);
    PairwiseFrom(c4, 0, o.isPronoun, o.isRelaxedMatch)
  }

  /** All six passes, in their fixed order. */
  function SievePasses(cs: seq<Mention>, o: Oracle, sents: Sents): (r: seq<Mention>)
    ensures SameMentions(cs, r)
  {
    PronounPass(Passes1To5(cs, o, sents), o)
  }

  /**
   * Passes 1 to 5 coarsen the partition, and from clusters in which no pronoun shares
   * its cluster they leave every pronoun's cluster as it was.
   */
  lemma Passes1To5Coarsen(cs: seq<Mention>, o: Oracle, sents: Sents)
    ensures var r := Passes1To5(cs, o, sents);
      Coarsens(cs, r) && (PronounsIsolated(cs, o.isPronoun) ==>
                           KeepsPronouns(cs, r, o.isPronoun) && PronounsIsolated(r, o.isPronoun))
  {
    var p := o.isPronoun;
    var c1 := PairwiseFrom(cs, 0, p, o.isExactMatch);
    var c2 := PairwiseFrom(c1, 0, p, PreciseConstruct(o, sents));
    var c3 := FirstMatchFrom(c2, 0, p, DemonstrativeOrShortened(o), o.isHeadMatch);
    var c4 := PairwiseFrom(c3, 0, p, o.isFullProperHeadMatch);
    var c5 := PairwiseFrom(c4, 0, p, o.isRelaxedMatch);
    PairwiseFromCoarsens(cs, 0, p, o.isExactMatch);
    PairwiseFromCoarsens(c1, 0, p, PreciseConstruct(o, sents));
    FirstMatchFromCoarsens(c2, 0, p, DemonstrativeOrShortened(o), o.isHeadMatch);
    PairwiseFromCoarsens(c3, 0, p, o.isFullProperHeadMatch);
    PairwiseFromCoarsens(c4, 0, p, o.isRelaxedMatch);
    CoarsensTransitive(cs, c1, c2);
    CoarsensTransitive(cs, c2, c3);
    CoarsensTransitive(cs, c3, c4);
    CoarsensTransitive(cs, c4, c5);
    if PronounsIsolated(cs, p) {
      PairwiseFromKeepsPronouns(cs, 0, p, o.isExactMatch);
      PairwiseFromKeepsPronouns(c1, 0, p, PreciseConstruct(o, sents));
      PairwiseFromKeepsPronouns(c3, 0, p, o.isFullProperHeadMatch);
      PairwiseFromKeepsPronouns(c4, 0, p, o.isRelaxedMatch);
    }
  }

  /**
   * The whole run, from clusters in which no pronoun shares its cluster: the final
   * partition coarsens the initial one.
   */
  lemma SievePassesCoarsen(cs: seq<Mention>, o: Oracle, sents: Sents)
    requires PronounsIsolated(cs, o.isPronoun)
    ensures Coarsens(cs, SievePasses(cs, o, sents))
  {
    var c5 := Passes1To5(cs, o, sents);
    Passes1To5Coarsen(cs, o, sents);
    PronounPassCoarsens(c5, o);
    CoarsensTransitive(cs, c5, PronounPass(c5, o));
  }

  /** Passes 2 to 6 coarsen what pass 1 leaves, from clusters in which no pronoun shares its cluster. */
  lemma AfterPass1Coarsen(cs: seq<Mention>, o: Oracle, sents: Sents)
    requires PronounsIsolated(cs, o.isPronoun)
    ensures Coarsens(PairwiseFrom(cs, 0, o.isPronoun, o.isExactMatch), SievePasses(cs, o, sents))
  {
    var p := o.isPronoun;
    var c1 := PairwiseFrom(cs, 0, p, o.isExactMatch);
    var c2 := PairwiseFrom(c1, 0, p, PreciseConstruct(o, sents));
    var c3 := FirstMatchFrom(c2, 0, p, DemonstrativeOrShortened(o), o.isHeadMatch);
    var c4 := PairwiseFrom(c3, 0, p, o.isFullProperHeadMatch);
    var c5 := Passes1To5(cs, o, sents);
    assert Coarsens(c1, c5) by {
      PairwiseFromCoarsens(c1, 0, p, PreciseConstruct(o, sents));
      FirstMatchFromCoarsens(c2, 0, p, DemonstrativeOrShortened(o), o.isHeadMatch);
      PairwiseFromCoarsens(c3, 0, p, o.isFullProperHeadMatch);
      PairwiseFromCoarsens(c4, 0, p, o.isRelaxedMatch);
      CoarsensTransitive(c1, c2, c3);
      CoarsensTransitive(c1, c3, c4);
      CoarsensTransitive(c1, c4, c5);
    }
    assert Coarsens(c5, PronounPass(c5, o)) by {
      Passes1To5Coarsen(cs, o, sents);
      PronounPassCoarsens(c5, o);
    }
    CoarsensTransitive(c1, c5, PronounPass(c5, o));
  }

  /**
   * The whole run, from clusters in which no pronoun shares its cluster: two non-pronouns
   * whose texts match exactly (pass 1's test) end in the same cluster.
   */
  lemma SievePassesJoinExact(cs: seq<Mention>, o: Oracle, sents: Sents)
    requires PronounsIsolated(cs, o.isPronoun)
    ensures var r := SievePasses(cs, o, sents);
      forall x, y :: (0 <= x <= y < |cs| && !o.isPronoun(cs[x].attrs) && !o.isPronoun(cs[y].attrs)
                      && o.isExactMatch(cs[x].attrs, cs[y].attrs)) ==> r[x].cluster == r[y].cluster
  {
    PairwiseFromJoins(cs, 0, o.isPronoun, o.isExactMatch);
    PairwiseFromCoarsens(cs, 0, o.isPronoun, o.isExactMatch);
    AfterPass1Coarsen(cs, o, sents);
  }
}
