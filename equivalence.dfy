/**
 * Reference definitions of the two equivalence classes src/mpsieve.py builds after the
 * passes: the system's classes (cluster id to mention ids) and the gold classes (label
 * to mention ids). The builders in mpsieve.dfy fill dictionaries in a loop and are
 * proved to produce exactly these.
 */
module Equivalence {
  import opened Mentions
  import opened SieveSpec

  // ---------------------------------------------------------------------------
  // System classes
  // ---------------------------------------------------------------------------

  /** The ids of the mentions in cluster `k`, in document order. */
  function Members(cs: seq<Mention>, k: int): seq<nat> {
    if cs == [] then []
    else Members(cs[..|cs| - 1], k) + (if cs[|cs| - 1].cluster == k then [cs[|cs| - 1].id] else [])
  }

  predicate UniqueIds(cs: seq<Mention>) {
    forall x, y :: 0 <= x < y < |cs| ==> cs[x].id != cs[y].id
  }

  lemma ClusterIdsSnoc(cs: seq<Mention>, m: Mention)
    ensures ClusterIds(cs + [m]) == ClusterIds(cs) + {m.cluster}
  {
    assert forall x :: x in cs + [m] <==> x in cs || x == m;
  }

  lemma {:induction false} MembersIff(cs: seq<Mention>, k: int, id: nat)
    ensures id in Members(cs, k) <==> exists x :: 0 <= x < |cs| && cs[x].id == id && cs[x].cluster == k
  {
    if cs != [] {
      var init := cs[..|cs| - 1];
      MembersIff(init, k, id);
      if id in Members(init, k) {
        var x :| 0 <= x < |init| && init[x].id == id && init[x].cluster == k;
        assert cs[x] == init[x];
      }
      if x :| 0 <= x < |cs| - 1 && cs[x].id == id && cs[x].cluster == k {
        assert init[x] == cs[x];
      }
    }
  }

  /** A class is non-empty exactly when its key is a cluster in use. */
  lemma MembersNonEmpty(cs: seq<Mention>, k: int)
    ensures Members(cs, k) != [] <==> k in ClusterIds(cs)
  {
    if Members(cs, k) != [] {
      MembersIff(cs, k, Members(cs, k)[0]);
    }
    if k in ClusterIds(cs) {
      var m :| m in cs && m.cluster == k;
      var x :| 0 <= x < |cs| && cs[x] == m;
      MembersIff(cs, k, m.id);
    }
  }

  /** One more mention adds its id to the end of its own cluster's class and leaves the other classes alone. */
  lemma SystemClassesSnoc(cs: seq<Mention>, m: Mention, found: map<int, seq<nat>>)
    requires found.Keys == ClusterIds(cs) && forall k :: k in found ==> found[k] == Members(cs, k)
    ensures var after := found[m.cluster := (if m.cluster in found then found[m.cluster] else []) + [m.id]];
      after.Keys == ClusterIds(cs + [m]) && forall k :: k in after ==> after[k] == Members(cs + [m], k)
  {
    var longer := cs + [m];
    assert longer[..|longer| - 1] == cs;
    ClusterIdsSnoc(cs, m);
    MembersNonEmpty(cs, m.cluster);
  }

  /**
   * The system classes partition the mentions: with unique ids, a mention's id is in
   * the class of its own cluster and in no other.
   */
  lemma MembersPartition(cs: seq<Mention>)
    requires UniqueIds(cs)
    ensures forall x, k :: 0 <= x < |cs| ==> (cs[x].id in Members(cs, k) <==> cs[x].cluster == k)
  {
    forall x, k | 0 <= x < |cs| ensures cs[x].id in Members(cs, k) <==> cs[x].cluster == k {
      MembersIff(cs, k, cs[x].id);
    }
  }

  // ---------------------------------------------------------------------------
  // Gold classes
  // ---------------------------------------------------------------------------

  /** The buckets a gold label value goes to: a list's labels, or a scalar as a one-element list. */
  function BucketKeys(v: LabelValue): (r: seq<LabelValue>)
    ensures forall k :: 0 <= k < |r| ==> !r[k].Labels?
  {
    match v
    case Labels(ns) => seq(|ns|, k requires 0 <= k < |ns| => Label(ns[k]))
    case _ => [v]
  }

  /** The ids of the mentions whose label value puts them in bucket `key`, in document order, repeats kept. */
  function Carriers(ms: seq<Mention>, key: LabelValue): seq<nat> {
    if ms == [] then []
    else Carriers(ms[..|ms| - 1], key) + (if key in BucketKeys(ms[|ms| - 1].labelValue) then [ms[|ms| - 1].id] else [])
  }

  function KeySet(keys: seq<LabelValue>): set<LabelValue> {
    set key | key in keys
  }

  /** Every bucket key some mention's label value yields. */
  function GoldKeys(ms: seq<Mention>): set<LabelValue> {
    if ms == [] then {}
    else GoldKeys(ms[..|ms| - 1]) + KeySet(BucketKeys(ms[|ms| - 1].labelValue))
  }

  function AppendNew(s: seq<nat>, x: nat): seq<nat> {
    if x in s then s else s + [x]
  }

  /** The first occurrence of each element, in order of first occurrence. */
  function Dedup(s: seq<nat>): seq<nat> {
    if s == [] then [] else AppendNew(Dedup(s[..|s| - 1]), s[|s| - 1])
  }

  predicate NoDuplicates(s: seq<nat>) {
    forall x, y :: 0 <= x < y < |s| ==> s[x] != s[y]
  }

  /** `Dedup` keeps every element exactly once. */
  lemma {:induction false} DedupProperties(s: seq<nat>)
    ensures NoDuplicates(Dedup(s))
    ensures forall x :: x in Dedup(s) <==> x in s
  {
    if s != [] {
      var init := s[..|s| - 1];
      DedupProperties(init);
      assert s == init + [s[|s| - 1]];
    }
  }

  lemma DedupAppend(s: seq<nat>, x: nat)
    ensures Dedup(s + [x]) == AppendNew(Dedup(s), x)
    ensures x in Dedup(s + [x])
  {
    assert (s + [x])[..|s|] == s;
  }

  /** The gold classes of `ms`: a bucket per gold key, holding its carriers once each, in document order. */
  predicate IsGoldClasses(ms: seq<Mention>, gold: map<LabelValue, seq<nat>>) {
    && gold.Keys == GoldKeys(ms)
    && forall key :: key in gold ==> gold[key] == Dedup(Carriers(ms, key))
  }

  /**
   * Midway through the mention after `ms`: its first `y` bucket keys `keys` have been
   * handled, each bucket holding the id of that mention once.
   */
  predicate BucketsSoFar(ms: seq<Mention>, keys: seq<LabelValue>, y: nat, id: nat, gold: map<LabelValue, seq<nat>>)
    requires y <= |keys|
  {
    && gold.Keys == GoldKeys(ms) + KeySet(keys[..y])
    && forall key :: key in gold ==> BucketSoFar(ms, keys, y, id, key, gold[key])
  }

  /** Bucket `key` holds its carriers in `ms`, followed by `id` once `key` is among the first `y` keys. */
  predicate BucketSoFar(ms: seq<Mention>, keys: seq<LabelValue>, y: nat, id: nat, key: LabelValue, bucket: seq<nat>)
    requires y <= |keys|
  {
    bucket == Dedup(if key in keys[..y] then Carriers(ms, key) + [id] else Carriers(ms, key))
  }

  /** Putting the id into bucket `keys[y]`, unless it is there, handles one more key. */
  lemma BucketsSoFarStep(ms: seq<Mention>, keys: seq<LabelValue>, y: nat, id: nat, gold: map<LabelValue, seq<nat>>)
    requires y < |keys| && BucketsSoFar(ms, keys, y, id, gold)
    ensures var bucket := if keys[y] in gold then gold[keys[y]] else [];
      BucketsSoFar(ms, keys, y + 1, id, gold[keys[y] := AppendNew(bucket, id)])
  {
    var key := keys[y];
    var bucket := if key in gold then gold[key] else [];
    var after := gold[key := AppendNew(bucket, id)];
    NewBucket(ms, keys, y, id, gold);
    KeysStep(ms, keys, y, gold.Keys, after.Keys);
    forall k | k in after ensures BucketSoFar(ms, keys, y + 1, id, k, after[k]) {
      if k == key {
        PrefixStep(keys, y);
      } else {
        BucketOtherStep(ms, keys, y, id, k, gold[k]);
      }
    }
  }

  lemma PrefixStep(keys: seq<LabelValue>, y: nat)
    requires y < |keys|
    ensures KeySet(keys[..y + 1]) == KeySet(keys[..y]) + {keys[y]}
    ensures forall k :: k in keys[..y + 1] <==> k in keys[..y] || k == keys[y]
  {
    assert keys[..y + 1] == keys[..y] + [keys[y]];
  }

  lemma KeysStep(ms: seq<Mention>, keys: seq<LabelValue>, y: nat, before: set<LabelValue>, after: set<LabelValue>)
    requires y < |keys| && before == GoldKeys(ms) + KeySet(keys[..y]) && after == before + {keys[y]}
    ensures after == GoldKeys(ms) + KeySet(keys[..y + 1])
  {
    PrefixStep(keys, y);
  }

  /** A bucket other than `keys[y]` is untouched by the step and stays as it should be. */
  lemma BucketOtherStep(ms: seq<Mention>, keys: seq<LabelValue>, y: nat, id: nat, key: LabelValue, bucket: seq<nat>)
    requires y < |keys| && key != keys[y] && BucketSoFar(ms, keys, y, id, key, bucket)
    ensures BucketSoFar(ms, keys, y + 1, id, key, bucket)
  {
    PrefixStep(keys, y);
  }

  /** The bucket `keys[y]` after the step holds the carriers of that key and then the id. */
  lemma NewBucket(ms: seq<Mention>, keys: seq<LabelValue>, y: nat, id: nat, gold: map<LabelValue, seq<nat>>)
    requires y < |keys| && BucketsSoFar(ms, keys, y, id, gold)
    ensures AppendNew(if keys[y] in gold then gold[keys[y]] else [], id) == Dedup(Carriers(ms, keys[y]) + [id])
  {
    var key := keys[y];
    DedupAppend(Carriers(ms, key), id);
    if key !in gold {
      CarriersOutsideKeys(ms, key);
    } else {
      assert BucketSoFar(ms, keys, y, id, key, gold[key]);
    }
  }

  /** Once every bucket key of the next mention `m` is handled, the classes are those of the longer prefix. */
  lemma GoldClassesSnoc(ms: seq<Mention>, m: Mention, gold: map<LabelValue, seq<nat>>)
    requires BucketsSoFar(ms, BucketKeys(m.labelValue), |BucketKeys(m.labelValue)|, m.id, gold)
    ensures IsGoldClasses(ms + [m], gold)
  {
    var keys := BucketKeys(m.labelValue);
    assert keys[..|keys|] == keys;
    var longer := ms + [m];
    assert longer[..|longer| - 1] == ms;
    assert longer[|longer| - 1] == m;
    assert GoldKeys(longer) == GoldKeys(ms) + KeySet(keys);
    forall key | key in gold ensures gold[key] == Dedup(Carriers(longer, key)) {
      assert BucketSoFar(ms, keys, |keys|, m.id, key, gold[key]);
      assert Carriers(longer, key) == if key in keys then Carriers(ms, key) + [m.id] else Carriers(ms, key);
    }
  }

  lemma {:induction false} CarriersOutsideKeys(ms: seq<Mention>, key: LabelValue)
    requires key !in GoldKeys(ms)
    ensures Carriers(ms, key) == []
  {
    if ms != [] {
      CarriersOutsideKeys(ms[..|ms| - 1], key);
    }
  }

  /**
   * The gold classes as scoring reads them: a mention's id is in bucket `key` exactly
   * when some mention with that id has a label value that yields `key` (a list label puts
   * it in one bucket per label), and no bucket holds an id twice.
   */
  lemma GoldClassesMeaning(ms: seq<Mention>, gold: map<LabelValue, seq<nat>>)
    requires IsGoldClasses(ms, gold)
    ensures forall key :: key in gold ==> NoDuplicates(gold[key])
    ensures forall x, key :: 0 <= x < |ms| && key in BucketKeys(ms[x].labelValue) ==>
              key in gold && ms[x].id in gold[key]
    ensures forall key, id :: key in gold && id in gold[key] ==>
              exists x :: 0 <= x < |ms| && ms[x].id == id && key in BucketKeys(ms[x].labelValue)
  {
    forall key | key in gold ensures NoDuplicates(gold[key]) {
      DedupProperties(Carriers(ms, key));
    }
    forall key, id | key in gold && id in gold[key]
      ensures exists x :: 0 <= x < |ms| && ms[x].id == id && key in BucketKeys(ms[x].labelValue)
    {
      DedupProperties(Carriers(ms, key));
      CarriersOnly(ms, key, id);
    }
    forall x, key | 0 <= x < |ms| && key in BucketKeys(ms[x].labelValue)
      ensures key in gold && ms[x].id in gold[key]
    {
      CarrierAt(ms, x, key);
      DedupProperties(Carriers(ms, key));
      if key !in GoldKeys(ms) { CarriersOutsideKeys(ms, key); }
    }
  }

  lemma {:induction false} CarriersOnly(ms: seq<Mention>, key: LabelValue, id: nat)
    requires id in Carriers(ms, key)
    ensures exists x :: 0 <= x < |ms| && ms[x].id == id && key in BucketKeys(ms[x].labelValue)
  {
    var init := ms[..|ms| - 1];
    if id in Carriers(init, key) {
      CarriersOnly(init, key, id);
      var x :| 0 <= x < |init| && init[x].id == id && key in BucketKeys(init[x].labelValue);
      assert ms[x] == init[x];
    }
  }

  lemma {:induction false} CarrierAt(ms: seq<Mention>, x: nat, key: LabelValue)
    requires x < |ms| && key in BucketKeys(ms[x].labelValue)
    ensures ms[x].id in Carriers(ms, key)
  {
    if x < |ms| - 1 {
      CarrierAt(ms[..|ms| - 1], x, key);
    }
  }
}
