/**
 * The gold-label map of src/utils/text_preprocess.py: `map_label_by_id` links each
 * mention's largest label to its other labels, `merge_labelmap` resolves chains of such
 * links, and `put_labels` gives every mention the resolved value of its largest label.
 *
 * A Python dict keeps the order in which keys were first inserted, and `merge_labelmap`
 * walks the keys in that order, so the map is modelled as that order plus the entries.
 */
module LabelMaps {
  import opened Mentions
  import opened Labels

  datatype LabelMap = LabelMap(order: seq<nat>, entries: map<nat, LabelValue>)

  /** `order` lists every key exactly once. */
  ghost predicate WellFormed(m: LabelMap) {
    && (forall x, y :: 0 <= x < y < |m.order| ==> m.order[x] != m.order[y])
    && (forall k :: k in m.order <==> k in m.entries)
  }

  lemma PrefixSnoc<T>(s: seq<T>, y: nat)
    requires y < |s|
    ensures s[..y + 1] == s[..y] + [s[y]]
  {
  }

  lemma UpdateSame(e: map<nat, LabelValue>, k: nat)
    requires k in e
    ensures e[k := e[k]] == e
  {
  }

  /** `dict.get`: the value of `k`, or None when `k` is no key. */
  function Get(e: map<nat, LabelValue>, k: nat): LabelValue {
    if k in e then e[k] else NoLabel
  }

  /** `label_map[k] = v`: a new key goes to the end of the order, an existing one keeps its place. */
  function Put(m: LabelMap, k: nat, v: LabelValue): (r: LabelMap)
    ensures WellFormed(m) ==> WellFormed(r)
  {
    LabelMap(if k in m.entries then m.order else m.order + [k], m.entries[k := v])
  }

  /** No label a value names is larger than its key. */
  predicate ValueBelow(v: LabelValue, k: nat) {
    match v
    case Label(n) => n <= k
    case Labels(ns) => forall x :: x in ns ==> x <= k
    case NoLabel => true
  }

  ghost predicate ValuesBelowKeys(e: map<nat, LabelValue>) {
    forall k :: k in e ==> ValueBelow(e[k], k)
  }

  predicate NoNone(e: map<nat, LabelValue>) {
    forall k :: k in e ==> e[k] != NoLabel
  }

  // ---------------------------------------------------------------------------
  // map_label_by_id
  // ---------------------------------------------------------------------------

  predicate AllLabelled(objs: seq<Mention>) {
    forall x :: 0 <= x < |objs| ==> objs[x].labels != []
  }

  /** The value a mention writes: its other labels in ascending order, or a lone label itself. */
  function Entry(labels: seq<nat>): LabelValue
    requires labels != []
  {
    var s := SortLabels(labels);
    SortLabelsSorts(labels);
    if |s| > 1 then Labels(s[..|s| - 1]) else Label(s[0])
  }

  /**
   * The second loop's rewrite: a one-element list becomes its element. On a one-digit
   * label string Python's `len(v) == 1` also holds and `v[0]` is that same string, so a
   * single label is left alone.
   */
  function Collapse(v: LabelValue): LabelValue {
    if v.Labels? && |v.ns| == 1 then Label(v.ns[0]) else v
  }

  /** The map after the first loop over `objs`. */
  function FirstLoop(objs: seq<Mention>): LabelMap
    requires AllLabelled(objs)
  {
    if objs == [] then LabelMap([], map[])
    else
      var last := objs[|objs| - 1];
      Put(FirstLoop(objs[..|objs| - 1]), MaxLabel(last.labels), Entry(last.labels))
  }

  /** The map `map_label_by_id` returns. */
  function MapLabels(objs: seq<Mention>): LabelMap
    requires AllLabelled(objs)
  {
    var m := FirstLoop(objs);
    LabelMap(m.order, map k | k in m.entries :: Collapse(m.entries[k]))
  }

  /** `map_label_by_id`: the two loops of the source, one after the other. */
  method MapLabelById(objs: seq<Mention>) returns (m: LabelMap)
    requires AllLabelled(objs)
    ensures m == MapLabels(objs)
  {
    m := WriteEntries(objs);
    FirstLoopShape(objs);
    m := CollapseSingletons(m);
  }

  /** The first loop: each mention writes its entry under its largest label, the last write winning. */
  method WriteEntries(objs: seq<Mention>) returns (m: LabelMap)
    requires AllLabelled(objs)
    ensures m == FirstLoop(objs)
  {
    m := LabelMap([], map[]);
    for x := 0 to |objs|
      invariant m == FirstLoop(objs[..x])
    {
      var labels := SortLabels(objs[x].labels);
      SortedLastIsMax(objs[x].labels);
      ghost var before := m;
      if |labels| > 1 {
        m := Put(m, labels[|labels| - 1], Labels(labels[..|labels| - 1]));
      } else {
        m := Put(m, labels[0], Label(labels[0]));
      }
      assert m == FirstLoop(objs[..x + 1]) by {
        var prefix := objs[..x + 1];
        assert prefix[..x] == objs[..x] && prefix[x] == objs[x];
        assert m == Put(before, MaxLabel(objs[x].labels), Entry(objs[x].labels));
      }
    }
    assert objs[..|objs|] == objs;
  }

  /** The second loop: every key's one-element list becomes its element. */
  method CollapseSingletons(first: LabelMap) returns (m: LabelMap)
    requires forall k :: k in first.entries ==> k in first.order
    ensures m == LabelMap(first.order, map k | k in first.entries :: Collapse(first.entries[k]))
  {
    m := first;
    for y := 0 to |m.order|
      invariant m.order == first.order && m.entries.Keys == first.entries.Keys
      invariant forall k :: k in m.entries ==> m.entries[k] == first.entries[k] || m.entries[k] == Collapse(first.entries[k])
      invariant forall k :: k in m.order[..y] && k in m.entries ==> m.entries[k] == Collapse(first.entries[k])
    {
      var key := m.order[y];
      PrefixSnoc(m.order, y);
      if key in m.entries {
        var v := m.entries[key];
        if v.Labels? && |v.ns| == 1 {
          m := m.(entries := m.entries[key := Label(v.ns[0])]);
        }
      }
    }
    assert m.order[..|m.order|] == m.order;
  }

  // ---------------------------------------------------------------------------
  // What map_label_by_id builds
  // ---------------------------------------------------------------------------

  /** An ascending sequence is its prefix, itself ascending, followed by its largest element. */
  lemma SplitAscending(s: seq<nat>)
    requires s != [] && Ascending(s)
    ensures var below, last := s[..|s| - 1], s[|s| - 1];
      && s == below + [last]
      && multiset(s) == multiset(below) + multiset{last}
      && Ascending(below)
      && forall x :: x in s ==> x <= last
  {
    var below, last := s[..|s| - 1], s[|s| - 1];
    assert s == below + [last];
    forall x | x in s ensures x <= last {
      var k :| 0 <= k < |s| && s[k] == x;
    }
  }

  /** Sorted labels are the labels below the largest, then the largest. */
  lemma SortedSplit(labels: seq<nat>)
    requires labels != []
    ensures var s, top := SortLabels(labels), MaxLabel(labels);
      && s == s[..|s| - 1] + [top]
      && multiset(s[..|s| - 1]) + multiset{top} == multiset(labels)
      && Ascending(s[..|s| - 1])
      && forall x :: x in s ==> x <= top
  {
    SortLabelsSorts(labels);
    SortedLastIsMax(labels);
    SplitAscending(SortLabels(labels));
  }

  /** The labels a value names, counted with repeats. */
  function Named(v: LabelValue): multiset<nat> {
    match v
    case Label(n) => multiset{n}
    case Labels(ns) => multiset(ns)
    case NoLabel => multiset{}
  }

  /** Collapsing a list names the same labels, and leaves a list unless it had one element. */
  lemma CollapseNamed(ns: seq<nat>, k: nat)
    requires forall x :: x in ns ==> x <= k
    ensures var v := Collapse(Labels(ns));
      Named(v) == multiset(ns) && ValueBelow(v, k) && (v.Labels? <==> |ns| != 1)
  {
    if |ns| == 1 {
      assert ns == [ns[0]] && ns[0] in ns;
    }
  }

  /**
   * What a mention's entry ends up as: a lone label maps to itself; otherwise the value
   * names exactly the labels other than the largest, as one label when there is only one
   * other and as an ascending list when there are more. Never None, and never a label
   * above the key.
   */
  lemma EntryMeaning(labels: seq<nat>)
    requires labels != []
    ensures var v, top := Collapse(Entry(labels)), MaxLabel(labels);
      && v != NoLabel && ValueBelow(v, top)
      && (|labels| == 1 ==> v == Label(top) && labels == [top])
      && (|labels| > 1 ==> Named(v) + multiset{top} == multiset(labels))
      && (v.Labels? <==> |labels| > 2)
      && (v.Labels? ==> Ascending(v.ns))
  {
    var s, top := SortLabels(labels), MaxLabel(labels);
    SortedSplit(labels);
    var below := s[..|s| - 1];
    if |labels| == 1 {
      assert below == [];
      assert labels == [labels[0]];
      assert labels[0] in multiset(labels);
    } else {
      assert forall x :: x in below ==> x in s;
      CollapseNamed(below, top);
    }
  }

  /** The key each mention writes, in order. */
  function Keys(objs: seq<Mention>): seq<nat>
    requires AllLabelled(objs)
  {
    seq(|objs|, x requires 0 <= x < |objs| => MaxLabel(objs[x].labels))
  }

  /** The first loop keeps the order and the keys in step, and its keys are those the mentions write. */
  lemma {:induction false} FirstLoopShape(objs: seq<Mention>)
    requires AllLabelled(objs)
    ensures WellFormed(FirstLoop(objs))
    ensures forall k :: k in FirstLoop(objs).entries <==> k in Keys(objs)
  {
    if objs != [] {
      var init := objs[..|objs| - 1];
      FirstLoopShape(init);
      assert Keys(objs) == Keys(init) + [MaxLabel(objs[|objs| - 1].labels)];
    }
  }

  /** Mentions sharing a largest label overwrite each other's entry: the last one wins. */
  lemma {:induction false} FirstLoopLastWrite(objs: seq<Mention>, x: nat)
    requires AllLabelled(objs) && x < |objs|
    requires forall y :: x < y < |objs| ==> MaxLabel(objs[y].labels) != MaxLabel(objs[x].labels)
    ensures var k := MaxLabel(objs[x].labels);
      k in FirstLoop(objs).entries && FirstLoop(objs).entries[k] == Entry(objs[x].labels)
  {
    if x < |objs| - 1 {
      var init := objs[..|objs| - 1];
      assert init[x] == objs[x];
      FirstLoopLastWrite(init, x);
    }
  }

  /** The keys of `map_label_by_id`'s map are exactly the largest labels of the mentions, listed once each. */
  lemma MapLabelsKeys(objs: seq<Mention>)
    requires AllLabelled(objs)
    ensures var m := MapLabels(objs);
      && WellFormed(m)
      && forall k :: k in m.entries <==> exists x :: 0 <= x < |objs| && MaxLabel(objs[x].labels) == k
  {
    var m := MapLabels(objs);
    FirstLoopShape(objs);
    var keys := Keys(objs);
    forall k ensures k in m.entries <==> exists x :: 0 <= x < |objs| && MaxLabel(objs[x].labels) == k {
      if k in keys {
        var x :| 0 <= x < |keys| && keys[x] == k;
      }
      if x :| 0 <= x < |objs| && MaxLabel(objs[x].labels) == k {
        assert keys[x] == k;
      }
    }
  }

  /** The entry under a mention's largest label is that mention's, when no later mention shares that label. */
  lemma MapLabelsLastWrite(objs: seq<Mention>, x: nat)
    requires AllLabelled(objs) && x < |objs|
    requires forall y :: x < y < |objs| ==> MaxLabel(objs[y].labels) != MaxLabel(objs[x].labels)
    ensures var m, k := MapLabels(objs), MaxLabel(objs[x].labels);
      k in m.entries && m.entries[k] == Collapse(Entry(objs[x].labels))
  {
    FirstLoopLastWrite(objs, x);
  }

  /** No value of `map_label_by_id`'s map is None or names a label above its key. */
  lemma MapLabelsValues(objs: seq<Mention>)
    requires AllLabelled(objs)
    ensures ValuesBelowKeys(MapLabels(objs).entries) && NoNone(MapLabels(objs).entries)
  {
    var m := MapLabels(objs);
    MapLabelsKeys(objs);
    forall k | k in m.entries ensures ValueBelow(m.entries[k], k) && m.entries[k] != NoLabel {
      var x :| 0 <= x < |objs| && MaxLabel(objs[x].labels) == k;
      var last := LastWith(objs, x);
      MapLabelsLastWrite(objs, last);
      EntryMeaning(objs[last].labels);
    }
  }

  /** The last mention, from `x` on, that has the same largest label as mention `x`. */
  function LastWith(objs: seq<Mention>, x: nat): (r: nat)
    requires AllLabelled(objs) && x < |objs|
    ensures x <= r < |objs| && MaxLabel(objs[r].labels) == MaxLabel(objs[x].labels)
    ensures forall y :: r < y < |objs| ==> MaxLabel(objs[y].labels) != MaxLabel(objs[x].labels)
    decreases |objs| - x
  {
    var later := FindKey(objs, x + 1, MaxLabel(objs[x].labels));
    if later == |objs| then x else LastWith(objs, later)
  }

  /** The first mention from `from` on whose key is `k`, or `|objs|`. */
  function FindKey(objs: seq<Mention>, from: nat, k: nat): (r: nat)
    requires AllLabelled(objs) && from <= |objs|
    ensures from <= r <= |objs|
    ensures r < |objs| ==> MaxLabel(objs[r].labels) == k
    ensures forall y :: from <= y < r ==> MaxLabel(objs[y].labels) != k
    decreases |objs| - from
  {
    if from == |objs| || MaxLabel(objs[from].labels) == k then from else FindKey(objs, from + 1, k)
  }

  // ---------------------------------------------------------------------------
  // merge_labelmap, as written
  // ---------------------------------------------------------------------------

  /**
   * The `while` loop of `merge_labelmap` for one key, from cursor `curr` whose value
   * names `ant`, with `cur` the key's value so far. Each round stores the value of `ant`
   * and moves the cursor there, and stops at a self-mapped label or when the stored
   * value, or the value it would look at next, is not a single label. The rounds only
   * look at keys below the one being rewritten, so they read the map as it was before.
   */
  function ChaseFrom(e: map<nat, LabelValue>, curr: nat, ant: nat, cur: LabelValue): (r: LabelValue)
    requires ValuesBelowKeys(e) && ant <= curr && ValueBelow(cur, curr)
    ensures ValueBelow(r, curr)
    decreases curr
  {
    if ant == curr then cur
    else
      var next := Get(e, ant);
      if !next.Label? then next
      else
        var after := Get(e, next.n);
        if !after.Label? then next
        else ChaseFrom(e, next.n, after.n, next)
  }

  /** What `merge_labelmap` stores under `key`: only a single-label value is rewritten. */
  function ChaseKey(e: map<nat, LabelValue>, key: nat): (r: LabelValue)
    requires ValuesBelowKeys(e) && key in e
    ensures ValueBelow(r, key)
    ensures !e[key].Label? ==> r == e[key]
  {
    var v := e[key];
    if v.Label? then ChaseFrom(e, key, v.n, v) else v
  }

  /** The keys from position `y` of `order` on, rewritten one after the other. */
  function ChaseAll(order: seq<nat>, e: map<nat, LabelValue>, y: nat): (r: map<nat, LabelValue>)
    requires ValuesBelowKeys(e) && y <= |order|
    ensures r.Keys == e.Keys && ValuesBelowKeys(r)
    decreases |order| - y
  {
    if y == |order| then e
    else
      var key := order[y];
      ChaseAll(order, if key in e then e[key := ChaseKey(e, key)] else e, y + 1)
  }

  /** `merge_labelmap` as the source has it: a walk over the keys, rewriting each single-label value. */
  method MergeLabelmapAsWritten(m: LabelMap) returns (r: LabelMap)
    requires WellFormed(m) && ValuesBelowKeys(m.entries)
    ensures r == LabelMap(m.order, ChaseAll(m.order, m.entries, 0))
  {
    var entries := m.entries;
    for y := 0 to |m.order|
      invariant entries.Keys == m.entries.Keys && ValuesBelowKeys(entries)
      invariant ChaseAll(m.order, entries, y) == ChaseAll(m.order, m.entries, 0)
    {
      assert m.order[y] in m.order;
      entries := ChaseIfLabel(m.order, entries, y);
    }
    r := LabelMap(m.order, entries);
  }

  /**
   * One turn of the `for` loop: only the key `order[y]` changes, to `ChaseKey`, which
   * leaves a value that is not a single label as it is.
   */
  method ChaseIfLabel(order: seq<nat>, e: map<nat, LabelValue>, y: nat) returns (entries: map<nat, LabelValue>)
    requires ValuesBelowKeys(e) && y < |order| && order[y] in e
    ensures entries == e[order[y] := ChaseKey(e, order[y])]
    ensures !e[order[y]].Label? ==> entries == e
    ensures entries.Keys == e.Keys && ValuesBelowKeys(entries)
    ensures ChaseAll(order, entries, y + 1) == ChaseAll(order, e, y)
  {
    var key := order[y];
    ChaseAllUnfold(order, e, y);
    if e[key].Label? {
      entries := Chase(e, key);
    } else {
      UpdateSame(e, key);
      entries := e;
    }
  }

  lemma ChaseAllUnfold(order: seq<nat>, e: map<nat, LabelValue>, y: nat)
    requires ValuesBelowKeys(e) && y < |order| && order[y] in e
    ensures ChaseAll(order, e, y) == ChaseAll(order, e[order[y] := ChaseKey(e, order[y])], y + 1)
  {
  }

  /** The `while` loop for one key with a single-label value, and its two `break`s. */
  method Chase(e: map<nat, LabelValue>, key: nat) returns (entries: map<nat, LabelValue>)
    requires ValuesBelowKeys(e) && key in e && e[key].Label?
    ensures entries == e[key := ChaseKey(e, key)] && ValuesBelowKeys(entries)
  {
    entries := e;
    var curr: nat := key;
    var ant: nat := entries[curr].n;
    while ant != curr
      invariant key in entries && entries == e[key := entries[key]]
      invariant ant <= curr <= key && ValueBelow(entries[key], curr)
      invariant ChaseFrom(e, curr, ant, entries[key]) == ChaseKey(e, key)
      decreases curr
    {
      var next := Get(entries, ant);
      assert next == Get(e, ant);
      entries := entries[key := next];
      if !next.Label? {
        break;
      }
      curr := next.n;
      var after := Get(entries, curr);
      assert after == Get(e, curr);
      if !after.Label? {
        break;
      }
      ant := after.n;
    }
  }

  // ---------------------------------------------------------------------------
  // merge_labelmap, corrected
  // ---------------------------------------------------------------------------

  /**
   * The end of the chain from label `x`: a label mapped to itself, a label that is no
   * key, or the first value that is not a single label (a list of labels, or None).
   */
  function Root(e: map<nat, LabelValue>, x: nat): (r: LabelValue)
    requires ValuesBelowKeys(e)
    ensures ValueBelow(r, x)
    ensures r.Label? ==> r.n !in e || e[r.n] == r
    ensures !r.Label? ==> x in e
    decreases x
  {
    if x !in e then Label(x)
    else match e[x]
      case Label(y) => if y == x then Label(x) else Root(e, y)
      case _ => e[x]
  }

  /**
   * A chain that does not end at a label ends at a value already in the map: a list of
   * labels or None stored under some key of the chain.
   */
  lemma {:induction false} RootEnd(e: map<nat, LabelValue>, x: nat)
    requires ValuesBelowKeys(e)
    ensures var r := Root(e, x);
      !r.Label? ==> exists k :: k in e && e[k] == r
    decreases x
  {
    if x in e && e[x].Label? && e[x].n != x {
      RootEnd(e, e[x].n);
    }
  }

  /**
   * Rewriting one key to the end of its chain changes the end of no chain; so the keys
   * can be rewritten one at a time in any order.
   */
  lemma {:induction false} RootUpdate(e: map<nat, LabelValue>, key: nat, x: nat)
    requires ValuesBelowKeys(e) && key in e
    ensures ValuesBelowKeys(e[key := Root(e, key)])
    ensures Root(e[key := Root(e, key)], x) == Root(e, x)
    decreases x
  {
    var e' := e[key := Root(e, key)];
    if x in e {
      if x == key {
        var v := Root(e, key);
        if v.Label? && v.n != key {
          RootUpdate(e, key, v.n);
        }
      } else if e[x].Label? && e[x].n != x {
        RootUpdate(e, key, e[x].n);
      }
    }
  }

  /** Two maps whose chains all end alike. */
  ghost predicate SameRoots(a: map<nat, LabelValue>, b: map<nat, LabelValue>)
    requires ValuesBelowKeys(a) && ValuesBelowKeys(b)
  {
    forall x :: Root(a, x) == Root(b, x)
  }

  lemma SameRootsTrans(a: map<nat, LabelValue>, b: map<nat, LabelValue>, c: map<nat, LabelValue>)
    requires ValuesBelowKeys(a) && ValuesBelowKeys(b) && ValuesBelowKeys(c)
    requires SameRoots(a, b) && SameRoots(b, c)
    ensures SameRoots(a, c)
  {
  }

  /** Rewriting one key to the end of its chain keeps every chain's end. */
  lemma RootUpdateAll(e: map<nat, LabelValue>, key: nat)
    requires ValuesBelowKeys(e) && key in e
    ensures ValuesBelowKeys(e[key := Root(e, key)]) && SameRoots(e[key := Root(e, key)], e)
  {
    RootUpdate(e, key, key);
    forall x ensures Root(e[key := Root(e, key)], x) == Root(e, x) {
      RootUpdate(e, key, x);
    }
  }

  /**
   * `merge_labelmap` corrected: each single-label key is rewritten to the end of its
   * chain.
   */
  method MergeLabelmap(m: LabelMap) returns (r: LabelMap)
    requires WellFormed(m) && ValuesBelowKeys(m.entries)
    ensures r.order == m.order && r.entries.Keys == m.entries.Keys
    ensures forall k :: k in r.entries ==> r.entries[k] == Root(m.entries, k)
    ensures r.entries == Resolved(m.entries)
  {
    r := m;
    for y := 0 to |m.order|
      invariant r.order == m.order && r.entries.Keys == m.entries.Keys
      invariant ValuesBelowKeys(r.entries) && SameRoots(r.entries, m.entries)
      invariant forall x :: 0 <= x < y ==> r.entries[m.order[x]] == Root(m.entries, m.order[x])
    {
      var key := r.order[y];
      ghost var before := r.entries;
      var v := FindRoot(r.entries, key);
      assert v == Root(m.entries, key);
      RootUpdateAll(r.entries, key);
      r := r.(entries := r.entries[key := v]);
      SameRootsTrans(r.entries, before, m.entries);
    }
    forall k | k in r.entries ensures r.entries[k] == Root(m.entries, k) {
      var x :| 0 <= x < |m.order| && m.order[x] == k;
    }
    ResolvedAt(m.entries, r.entries);
  }

  /** Following the chain from `key` one link at a time. */
  method FindRoot(e: map<nat, LabelValue>, key: nat) returns (v: LabelValue)
    requires ValuesBelowKeys(e) && key in e
    ensures v == Root(e, key)
  {
    var at := key;
    v := e[key];
    while v.Label? && v.n != at && v.n in e
      invariant at in e && v == e[at] && ValueBelow(v, at)
      invariant Root(e, at) == Root(e, key)
      decreases at
    {
      at := v.n;
      v := e[at];
    }
  }

  /** The map the corrected `merge_labelmap` leaves: every key rewritten to the end of its chain. */
  ghost function Resolved(e: map<nat, LabelValue>): (r: map<nat, LabelValue>)
    requires ValuesBelowKeys(e)
    ensures r.Keys == e.Keys && ValuesBelowKeys(r)
  {
    map k | k in e :: Root(e, k)
  }

  /** A map with the same keys whose every value is the end of that key's chain is `Resolved`. */
  lemma ResolvedAt(e: map<nat, LabelValue>, r: map<nat, LabelValue>)
    requires ValuesBelowKeys(e) && r.Keys == e.Keys
    requires forall k :: k in r ==> r[k] == Root(e, k)
    ensures r == Resolved(e)
  {
  }

  /**
   * What the corrected merge promises: a key linked to another label resolves as that
   * label does; nothing resolves to None unless None was already a value; and resolving
   * again changes nothing.
   */
  lemma ResolvedMeaning(e: map<nat, LabelValue>)
    requires ValuesBelowKeys(e)
    ensures var r := Resolved(e);
      && (forall k :: k in e && e[k].Label? ==> r[k] == Root(e, e[k].n))
      && (NoNone(e) ==> NoNone(r))
      && forall k :: k in r ==> Root(r, k) == r[k]
  {
    var r := Resolved(e);
    forall k | k in r && NoNone(e) ensures r[k] != NoLabel {
      RootEnd(e, k);
    }
    forall k | k in r ensures Root(r, k) == r[k] {
      var v := r[k];
      if v.Label? && v.n != k && v.n in e {
        assert e[v.n] == v;
        assert r[v.n] == v;
      }
    }
  }

  /**
   * The source on a chain that leaves the map: a mention labelled 3 and 5 whose outer
   * label 3 is no key gives `{5: "3"}`, which `merge_labelmap` rewrites to `{5: None}`;
   * one link further, `{7: "5", 5: "3"}` becomes `{7: "3", 5: None}`, so labels 7 and 5
   * of one chain end apart. The corrected merge sends all of them to 3.
   */
  lemma DanglingChain()
    ensures ChaseAll([5], map[5 := Label(3)], 0) == map[5 := NoLabel]
    ensures ChaseAll([7, 5], map[7 := Label(5), 5 := Label(3)], 0) == map[7 := Label(3), 5 := NoLabel]
    ensures Resolved(map[5 := Label(3)]) == map[5 := Label(3)]
    ensures Resolved(map[7 := Label(5), 5 := Label(3)]) == map[7 := Label(3), 5 := Label(3)]
  {
    var one := map[5 := Label(3)];
    assert ChaseKey(one, 5) == NoLabel;
    var two := map[7 := Label(5), 5 := Label(3)];
    assert ChaseKey(two, 7) == Label(3);
    var two' := two[7 := Label(3)];
    assert ChaseKey(two', 5) == NoLabel;
    assert Root(two, 7) == Label(3);
  }

  /**
   * Two more ways the source parts from the corrected merge. The order of the keys
   * matters: with `5` rewritten before `7`, `{5: "3", 7: "5"}` becomes all None, because
   * key 7 then reads the None already stored under 5. A chain that ends at a list stops
   * one link short: `{9: "7", 7: "5", 5: ["1", "2"]}` stores "5" under 9, where the end
   * of the chain is the list.
   */
  lemma OrderAndListChains()
    ensures ChaseAll([5, 7], map[5 := Label(3), 7 := Label(5)], 0) == map[5 := NoLabel, 7 := NoLabel]
    ensures Resolved(map[5 := Label(3), 7 := Label(5)]) == map[5 := Label(3), 7 := Label(3)]
    ensures ChaseAll([9, 7, 5], map[9 := Label(7), 7 := Label(5), 5 := Labels([1, 2])], 0)[9] == Label(5)
    ensures Resolved(map[9 := Label(7), 7 := Label(5), 5 := Labels([1, 2])])[9] == Labels([1, 2])
  {
    var one := map[5 := Label(3), 7 := Label(5)];
    assert ChaseKey(one, 5) == NoLabel;
    var one' := one[5 := NoLabel];
    assert ChaseKey(one', 7) == NoLabel;
    assert Root(one, 7) == Label(3);
    var two := map[9 := Label(7), 7 := Label(5), 5 := Labels([1, 2])];
    assert ChaseKey(two, 9) == Label(5);
    var two' := two[9 := Label(5)];
    assert ChaseKey(two', 7) == Labels([1, 2]);
    assert Root(two, 9) == Labels([1, 2]);
  }

  /** The chain from `x` ends at a label that is a key, and so maps to itself. */
  ghost predicate EndsAtKey(e: map<nat, LabelValue>, x: nat)
    requires ValuesBelowKeys(e)
  {
    Root(e, x).Label? && Root(e, x).n in e
  }

  /** Every key holding a single label starts a chain that ends at a key. */
  ghost predicate ChainsEndAtKeys(e: map<nat, LabelValue>) {
    ValuesBelowKeys(e) && forall k :: k in e && e[k].Label? ==> EndsAtKey(e, k)
  }

  /** On a chain that ends at a key, the two-links-per-turn walk reaches that end. */
  lemma {:induction false} ChaseFromRoot(e: map<nat, LabelValue>, curr: nat, ant: nat, cur: LabelValue)
    requires ValuesBelowKeys(e) && ant < curr && ValueBelow(cur, curr) && EndsAtKey(e, ant)
    ensures ChaseFrom(e, curr, ant, cur) == Root(e, ant)
    decreases curr
  {
    assert ant in e && e[ant].Label?;
    var y := e[ant].n;
    if y != ant {
      assert Root(e, ant) == Root(e, y);
      assert y in e && e[y].Label?;
      var z := e[y].n;
      if z != y {
        ChaseFromRoot(e, y, z, Label(y));
      }
    }
  }

  /** Where the chain from `key` ends at a key, or `key` holds no single label, the walk gives the end. */
  lemma ChaseKeyRoot(e: map<nat, LabelValue>, key: nat)
    requires ValuesBelowKeys(e) && key in e && (e[key].Label? ==> EndsAtKey(e, key))
    ensures ChaseKey(e, key) == Root(e, key)
  {
    if e[key].Label? && e[key].n != key {
      ChaseFromRoot(e, key, e[key].n, e[key]);
    }
  }

  /** The keys from position `y` on, rewritten as written, resolve the map when every chain ends at a key. */
  lemma {:induction false} ChaseAllResolved(order: seq<nat>, e: map<nat, LabelValue>, y: nat)
    requires ChainsEndAtKeys(e) && y <= |order|
    requires forall k :: k in e ==> k in order[y..] || e[k] == Root(e, k)
    ensures ChaseAll(order, e, y) == Resolved(e)
    decreases |order| - y
  {
    if y == |order| {
      ResolvedAt(e, e);
    } else {
      var key := order[y];
      if key in e {
        ChaseKeyRoot(e, key);
        var e' := e[key := Root(e, key)];
        RootUpdateAll(e, key);
        assert ChainsEndAtKeys(e') by {
          forall k | k in e' && e'[k].Label? ensures EndsAtKey(e', k) {
            assert Root(e', k) == Root(e, k);
          }
        }
        forall k | k in e' ensures k in order[y + 1..] || e'[k] == Root(e', k) {
          assert Root(e', k) == Root(e, k);
          if k != key && k in order[y..] {
            var x :| y <= x < |order| && order[x] == k;
            assert order[x] in order[y + 1..];
          }
        }
        ChaseAllResolved(order, e', y + 1);
        ResolvedAt(e, Resolved(e'));
      } else {
        forall k | k in e ensures k in order[y + 1..] || e[k] == Root(e, k) {
          if k in order[y..] {
            var x :| y <= x < |order| && order[x] == k;
            assert order[x] in order[y + 1..];
          }
        }
        ChaseAllResolved(order, e, y + 1);
      }
    }
  }

  /**
   * Where the two versions agree: when every chain from a single-label key ends at a key
   * (a label mapped to itself), `merge_labelmap` as written resolves every key, in any
   * key order, exactly as the corrected merge does.
   */
  lemma MergeLabelmapAgrees(m: LabelMap)
    requires WellFormed(m) && ChainsEndAtKeys(m.entries)
    ensures ChaseAll(m.order, m.entries, 0) == Resolved(m.entries)
  {
    assert m.order[0..] == m.order;
    ChaseAllResolved(m.order, m.entries, 0);
  }

  // ---------------------------------------------------------------------------
  // put_labels
  // ---------------------------------------------------------------------------

  /** The mentions `put_labels` leaves, with map entries `e`. */
  function LabelsPut(objs: seq<Mention>, e: map<nat, LabelValue>): seq<Mention>
    requires AllLabelled(objs)
  {
    seq(|objs|, x requires 0 <= x < |objs| =>
      objs[x].(labels := SortLabels(objs[x].labels), labelValue := Get(e, MaxLabel(objs[x].labels))))
  }

  /**
   * `put_labels`: each mention's labels are sorted in place, and its `label` becomes the
   * map's value for the largest of them (None when that label is no key).
   */
  method PutLabels(objs: seq<Mention>, m: LabelMap) returns (r: seq<Mention>)
    requires AllLabelled(objs)
    ensures |r| == |objs|
    ensures forall x :: 0 <= x < |r| ==>
      && Ascending(r[x].labels) && multiset(r[x].labels) == multiset(objs[x].labels)
      && r[x] == objs[x].(labels := r[x].labels, labelValue := Get(m.entries, MaxLabel(objs[x].labels)))
    ensures r == LabelsPut(objs, m.entries)
  {
    r := [];
    for x := 0 to |objs|
      invariant |r| == x
      invariant forall y :: 0 <= y < x ==> r[y] == LabelsPut(objs, m.entries)[y]
    {
      var labels := SortLabels(objs[x].labels);
      SortedLastIsMax(objs[x].labels);
      r := r + [objs[x].(labels := labels, labelValue := Get(m.entries, labels[|labels| - 1]))];
    }
    forall x | 0 <= x < |r|
      ensures Ascending(r[x].labels) && multiset(r[x].labels) == multiset(objs[x].labels)
    {
      SortLabelsSorts(objs[x].labels);
    }
  }

  /**
   * With the corrected merge, every mention gets a label: its largest label is a key of
   * `map_label_by_id`'s map, no value there is None, and resolving introduces none.
   */
  lemma EveryMentionLabelled(objs: seq<Mention>, x: nat)
    requires AllLabelled(objs) && x < |objs|
    ensures var e := MapLabels(objs).entries;
      ValuesBelowKeys(e) && Get(Resolved(e), MaxLabel(objs[x].labels)) != NoLabel
  {
    var e := MapLabels(objs).entries;
    MapLabelsKeys(objs);
    MapLabelsValues(objs);
    ResolvedMeaning(e);
  }
}
