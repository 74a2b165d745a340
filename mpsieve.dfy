/**
 * The multi-pass sieve of src/mpsieve.py as the stateful object it is: the mention list
 * `clusters` is a field that each pass rewrites in place. Every pass is proved to leave
 * the field equal to the corresponding function of SieveSpec applied to its old value, so
 * the lemmas proved there are what the passes guarantee; the two builders are proved to
 * return the equivalence classes of Equivalence.
 */
module MpSieve {
  import opened Mentions
  import opened SieveSpec
  import opened Equivalence

  class MultiPassSieve {
    /** The working copy of one document's mentions; only `cluster` values ever change. */
    var clusters: seq<Mention>

    constructor()
      ensures clusters == []
    {
      clusters := [];
    }

    /** `merge_cluster`: b, then every mention sharing b's old cluster, takes a's cluster. */
    method MergeCluster(a: nat, b: nat)
      requires a < |clusters| && b < |clusters|
      modifies this
      ensures clusters == Merged(old(clusters), a, b)
    {
      ghost var start := clusters;
      var oldCluster := clusters[b].cluster;
      var newCluster := clusters[a].cluster;
      clusters := clusters[b := clusters[b].(cluster := newCluster)];
      for k := 0 to |clusters|
        invariant |clusters| == |start|
        invariant forall x :: 0 <= x < k ==> clusters[x] == Merged(start, a, b)[x]
        invariant forall x :: k <= x < |clusters| && x != b ==> clusters[x] == start[x]
        invariant k <= b ==> clusters[b] == start[b].(cluster := newCluster)
      {
        if clusters[k].cluster == oldCluster {
          clusters := clusters[k := clusters[k].(cluster := newCluster)];
        }
      }
    }

    /**
     * The exhaustive scan shared by passes 1, 2, 4 and 5: every non-pronoun antecedent
     * is tried against itself and every later mention, and each match is merged.
     */
    method PairwisePass(isPronoun: Attrs -> bool, matches: (Attrs, Attrs) -> bool)
      modifies this
      ensures clusters == PairwiseFrom(old(clusters), 0, isPronoun, matches)
    {
      ghost var target := PairwiseFrom(clusters, 0, isPronoun, matches);
      var n := |clusters|;
      for i := 0 to n
        invariant |clusters| == n
        invariant PairwiseFrom(clusters, i, isPronoun, matches) == target
      {
        if isPronoun(clusters[i].attrs) {
          continue;
        }
        ghost var scanned := MergeScan(clusters, i, i, isPronoun, matches);
        for j := i to n
          invariant |clusters| == n
          invariant MergeScan(clusters, i, j, isPronoun, matches) == scanned
          invariant !isPronoun(clusters[i].attrs)
        {
          if IsSameCluster(clusters[i], clusters[j]) || isPronoun(clusters[j].attrs) {
            continue;
          }
          if matches(clusters[i].attrs, clusters[j].attrs) {
            MergeCluster(i, j);
          }
        }
      }
    }

    /** Pass 1: exact string match. */
    method Pass1(o: Oracle)
      modifies this
      ensures clusters == PairwiseFrom(old(clusters), 0, o.isPronoun, o.isExactMatch)
    {
      PairwisePass(o.isPronoun, o.isExactMatch);
    }

    /** Pass 2: precise constructs (appositive, copulative, abbreviation). */
    method Pass2(sents: Sents, o: Oracle)
      modifies this
      ensures clusters == PairwiseFrom(old(clusters), 0, o.isPronoun, PreciseConstruct(o, sents))
    {
      PairwisePass(o.isPronoun, PreciseConstruct(o, sents));
    }

    /**
     * Pass 3: strict head match. For each non-pronoun antecedent, the first candidate
     * that is demonstrative or a shortened name, or else a head match, is merged and the
     * scan for that antecedent stops.
     */
    method Pass3(o: Oracle)
      modifies this
      ensures clusters == FirstMatchFrom(old(clusters), 0, o.isPronoun, DemonstrativeOrShortened(o), o.isHeadMatch)
    {
      ghost var strong := DemonstrativeOrShortened(o);
      ghost var target := FirstMatchFrom(clusters, 0, o.isPronoun, strong, o.isHeadMatch);
      var n := |clusters|;
      for i := 0 to n
        invariant |clusters| == n
        invariant FirstMatchFrom(clusters, i, o.isPronoun, strong, o.isHeadMatch) == target
      {
        if o.isPronoun(clusters[i].attrs) {
          continue;
        }
        ghost var before := clusters;
        ghost var scanned := FirstMatchScan(clusters, i, i, o.isPronoun, strong, o.isHeadMatch);
        for j := i to n
          invariant clusters == before
          invariant FirstMatchScan(clusters, i, j, o.isPronoun, strong, o.isHeadMatch) == scanned
        {
          if IsSameCluster(clusters[i], clusters[j]) || o.isPronoun(clusters[j].attrs) {
            continue;
          } else if o.isDemonstrative(clusters[i].attrs, clusters[j].attrs) || o.isNameShortened(clusters[i].attrs, clusters[j].attrs) {
            MergeCluster(i, j);
            break;
          }
          if o.isHeadMatch(clusters[i].attrs, clusters[j].attrs) {
            MergeCluster(i, j);
            break;
          }
        }
        assert clusters == scanned;
      }
    }

    /** Pass 4: proper head match. */
    method Pass4(o: Oracle)
      modifies this
      ensures clusters == PairwiseFrom(old(clusters), 0, o.isPronoun, o.isFullProperHeadMatch)
    {
      PairwisePass(o.isPronoun, o.isFullProperHeadMatch);
    }

    /** Pass 5: relaxed head match. */
    method Pass5(o: Oracle)
      modifies this
      ensures clusters == PairwiseFrom(old(clusters), 0, o.isPronoun, o.isRelaxedMatch)
    {
      PairwisePass(o.isPronoun, o.isRelaxedMatch);
    }

    /**
     * Pass 6: pronouns, walked right to left with a candidate cursor and an antecedent
     * cursor below it. A pronoun candidate takes the cluster of the first eligible
     * antecedent to its left, and both cursors move down.
     */
    method Pass6(o: Oracle)
      modifies this
      ensures clusters == PronounPass(old(clusters), o)
    {
      ghost var target := PronounPass(clusters, o);
      var candidate := |clusters| - 1;
      var antecedent := |clusters| - 2;
      while candidate > 0 && antecedent >= 0
        invariant candidate < |clusters| && antecedent < |clusters|
        invariant PronounPassFrom(clusters, candidate, antecedent, o) == target
        decreases candidate, antecedent
      {
        if candidate <= antecedent {
          antecedent := candidate - 1;
        } else if o.isPronoun(clusters[candidate].attrs) {
          if || (o.isClitic(clusters[candidate].attrs) && Abs(antecedent - candidate) <= 1)
             || o.isLocation(clusters[antecedent].attrs)
             || o.isPronoun(clusters[antecedent].attrs)
             || o.isWordClassMismatch(clusters[candidate].attrs, clusters[antecedent].attrs)
          {
            antecedent := antecedent - 1;
            continue;
          }
          clusters := clusters[candidate := clusters[candidate].(cluster := clusters[antecedent].cluster)];
          candidate := candidate - 1;
          antecedent := antecedent - 1;
        } else {
          candidate := candidate - 1;
          antecedent := candidate - 1;
        }
      }
    }

    /** `build_mps_equivalent_class`: each cluster in use, with the ids of its mentions in order. */
    method BuildMpsEquivalentClass() returns (found: map<int, seq<nat>>)
      ensures found.Keys == ClusterIds(clusters)
      ensures forall k :: k in found ==> found[k] == Members(clusters, k)
    {
      found := map[];
      for x := 0 to |clusters|
        invariant found.Keys == ClusterIds(clusters[..x])
        invariant forall k :: k in found ==> found[k] == Members(clusters[..x], k)
      {
        var m := clusters[x];
        SystemClassesSnoc(clusters[..x], m, found);
        var arr := if m.cluster in found then found[m.cluster] else [];
        found := found[m.cluster := arr + [m.id]];
        assert clusters[..x + 1] == clusters[..x] + [m];
      }
      assert clusters[..|clusters|] == clusters;
    }

    /**
     * `build_gold_equivalent_class`: each gold label, with the ids of the mentions that
     * carry it, once each, in order of first appearance.
     */
    method BuildGoldEquivalentClass(mentions: seq<Mention>) returns (gold: map<LabelValue, seq<nat>>)
      ensures IsGoldClasses(mentions, gold)
    {
      gold := map[];
      for x := 0 to |mentions|
        invariant IsGoldClasses(mentions[..x], gold)
      {
        var id := mentions[x].id;
        var labels := BucketKeys(mentions[x].labelValue);
        ghost var prefix := mentions[..x];
        for y := 0 to |labels|
          invariant BucketsSoFar(prefix, labels, y, id, gold)
        {
          var lbl := labels[y];
          ghost var next := gold[lbl := AppendNew(if lbl in gold then gold[lbl] else [], id)];
          assert BucketsSoFar(prefix, labels, y + 1, id, next) by {
            BucketsSoFarStep(prefix, labels, y, id, gold);
          }
          var bucket := if lbl in gold then gold[lbl] else [];
          if id !in bucket {
            bucket := bucket + [id];
          }
          gold := gold[lbl := bucket];
        }
        assert IsGoldClasses(mentions[..x + 1], gold) by {
          assert mentions[..x + 1] == prefix + [mentions[x]];
          GoldClassesSnoc(prefix, mentions[x], gold);
        }
      }
      assert mentions[..|mentions|] == mentions;
    }

    /**
     * One document, as `run` handles it after reading its files: a fresh copy of the
     * mentions goes through the six passes in order, and both equivalence classes are built.
     */
    method Run(mentions: seq<Mention>, sents: Sents, o: Oracle) returns (mps: map<int, seq<nat>>, gold: map<LabelValue, seq<nat>>)
      modifies this
      ensures clusters == SievePasses(mentions, o, sents)
      ensures mps.Keys == ClusterIds(clusters) && forall k :: k in mps ==> mps[k] == Members(clusters, k)
      ensures IsGoldClasses(mentions, gold)
    {
      clusters := mentions;
      Pass1(o);
      Pass2(sents, o);
      Pass3(o);
      Pass4(o);
      Pass5(o);
      Pass6(o);
      mps := BuildMpsEquivalentClass();
      gold := BuildGoldEquivalentClass(mentions);
    }
  }

  function Abs(x: int): nat {
    if x < 0 then -x else x
  }
}
