/**
 * The per-document body of `TextPreprocess.run` (src/utils/text_preprocess.py): tokenize the
 * annotated text, fold nested mentions, add the attributes, build and resolve the label map
 * and give every mention its gold label. Reading the file and writing the pickle are left
 * to the caller; the label map is resolved with the corrected merge.
 */
module Preprocess {
  import opened Wrappers
  import opened Mentions
  import opened Labels
  import opened Tokenize
  import opened NestedLabels
  import opened Attributes
  import opened LabelMaps
  import opened SieveSpec
  import opened Equivalence

  /** What the sieve may rely on in a preprocessed document. */
  predicate Prepared(r: seq<Mention>) {
    && (forall x :: 0 <= x < |r| ==> r[x].cluster == x)
    && (forall x, y :: 0 <= x < y < |r| ==> r[x].id < r[y].id)
    && (forall x :: 0 <= x < |r| ==> r[x].labels != [] && Ascending(r[x].labels))
    && (forall x :: 0 <= x < |r| ==> r[x].labelValue != NoLabel)
  }

  /**
   * The six steps composed on one document: the tokenizer's error, or the tokenized
   * mentions folded, given their attributes, and labelled from the resolved label map.
   */
  ghost function Preprocessed(annotation: string, sents: Sents, clitics: set<string>, f: Features)
    : Result<seq<Mention>, TokenizeError>
  {
    match Tokenized(annotation)
    case Failure(e) => Failure(e)
    case Success(tokens) =>
      ScanNumbers(SplitKeep(annotation), 0, 0, 0);
      MergedLabelled(tokens, clitics);
      Success(Labelled(AttributedAll(NestedMerged(tokens, clitics), sents, f)))
  }

  /** `map_label_by_id`, the corrected `merge_labelmap` and `put_labels` on attributed mentions. */
  ghost function Labelled(attributed: seq<Mention>): seq<Mention>
    requires AllLabelled(attributed)
  {
    MapLabelsValues(attributed);
    LabelsPut(attributed, Resolved(MapLabels(attributed).entries))
  }

  /** The fold keeps every mention labelled, with its tokenizer id, in document order. */
  lemma MergedLabelled(tokens: seq<Annotated>, clitics: set<string>)
    requires NumberedFrom(tokens, 0)
    ensures var merged := NestedMerged(tokens, clitics);
      && (forall x :: 0 <= x < |merged| ==> merged[x].labels != [])
      && forall x, y :: 0 <= x < y < |merged| ==> merged[x].id < merged[y].id
  {
    var merged := NestedMerged(tokens, clitics);
    var kept := NestedMergedTracks(tokens, clitics);
    forall x | 0 <= x < |merged| ensures merged[x].labels != [] && merged[x].id == kept[x] {
      assert Grown(tokens[kept[x]], merged[x]);
    }
  }

  /** Attributed mentions keep the fold's ids and labels and sit in their own clusters. */
  lemma AttributedAllKeeps(merged: seq<Annotated>, sents: Sents, f: Features)
    requires forall x :: 0 <= x < |merged| ==> merged[x].labels != []
    requires forall x, y :: 0 <= x < y < |merged| ==> merged[x].id < merged[y].id
    ensures var a := AttributedAll(merged, sents, f);
      && AllLabelled(a) && (forall x :: 0 <= x < |a| ==> a[x].cluster == x)
      && forall x, y :: 0 <= x < y < |a| ==> a[x].id < a[y].id
  {
  }

  /** Labelling mentions that are alone in their clusters, with ids in order, prepares them. */
  lemma LabelledPrepared(attributed: seq<Mention>)
    requires AllLabelled(attributed) && (forall x :: 0 <= x < |attributed| ==> attributed[x].cluster == x)
    requires forall x, y :: 0 <= x < y < |attributed| ==> attributed[x].id < attributed[y].id
    ensures Prepared(Labelled(attributed))
  {
    MapLabelsKeys(attributed);
    MapLabelsValues(attributed);
    var e := MapLabels(attributed).entries;
    var labelled := LabelsPut(attributed, Resolved(e));
    forall x | 0 <= x < |labelled|
      ensures && Ascending(labelled[x].labels) && multiset(labelled[x].labels) == multiset(attributed[x].labels)
        && labelled[x] == attributed[x].(labels := labelled[x].labels, labelValue := Get(Resolved(e), MaxLabel(attributed[x].labels)))
    {
      SortLabelsSorts(attributed[x].labels);
    }
    LabelledAfterPut(attributed, LabelMap(MapLabels(attributed).order, Resolved(e)), labelled);
  }

  /**
   * What the sieve may rely on in every document that preprocesses: each mention keeps
   * its tokenizer id (in document order), starts alone in its cluster, has its labels
   * sorted and carries a gold label; and a document preprocesses exactly when it
   * tokenizes.
   */
  lemma PreprocessedPrepared(annotation: string, sents: Sents, clitics: set<string>, f: Features)
    ensures Preprocessed(annotation, sents, clitics, f).Success? <==> Tokenized(annotation).Success?
    ensures var r := Preprocessed(annotation, sents, clitics, f); r.Success? ==> Prepared(r.value)
  {
    if Tokenized(annotation).Success? {
      var tokens := Tokenized(annotation).value;
      ScanNumbers(SplitKeep(annotation), 0, 0, 0);
      MergedLabelled(tokens, clitics);
      AttributedAllKeeps(NestedMerged(tokens, clitics), sents, f);
      LabelledPrepared(AttributedAll(NestedMerged(tokens, clitics), sents, f));
    }
  }

  /**
   * One document through the whole preprocessing step: the loop computes `Preprocessed`,
   * which succeeds exactly when the annotation tokenizes (`PreprocessedPrepared`).
   */
  method PreprocessDocument(annotation: string, sents: Sents, clitics: set<string>, f: Features)
    returns (r: Result<seq<Mention>, TokenizeError>)
    ensures r == Preprocessed(annotation, sents, clitics, f)
    ensures r.Success? <==> Tokenized(annotation).Success?
    ensures Tokenized(annotation).Failure? ==> r == Failure(Tokenized(annotation).error)
    ensures r.Success? ==> Prepared(r.value)
  {
    PreprocessedPrepared(annotation, sents, clitics, f);
    var tokenized := TokenizeByRegex(annotation);
    if tokenized.Failure? {
      return Failure(tokenized.error);
    }
    var merged, kept := MergeNestedLabels(tokenized.value, clitics);
    var attributed := GenMentionAttributes(merged, sents, f);
    MergedLabelled(tokenized.value, clitics);
    AttributedAllKeeps(merged, sents, f);
    var first := MapLabelById(attributed);
    MapLabelsKeys(attributed);
    MapLabelsValues(attributed);
    var resolved := MergeLabelmap(first);
    var labelled := PutLabels(attributed, resolved);
    assert labelled == Labelled(attributed);
    return Success(labelled);
  }

  /**
   * `put_labels` with the resolved map keeps each mention's id and cluster, sorts its
   * labels and gives it a label that is not None.
   */
  lemma LabelledAfterPut(objs: seq<Mention>, resolved: LabelMap, r: seq<Mention>)
    requires AllLabelled(objs) && (forall x :: 0 <= x < |objs| ==> objs[x].cluster == x)
    requires (forall x, y :: 0 <= x < y < |objs| ==> objs[x].id < objs[y].id)
    requires ValuesBelowKeys(MapLabels(objs).entries)
    requires resolved.entries.Keys == MapLabels(objs).entries.Keys
    requires forall k :: k in resolved.entries ==> resolved.entries[k] == Root(MapLabels(objs).entries, k)
    requires |r| == |objs|
    requires forall x :: 0 <= x < |r| ==>
      && Ascending(r[x].labels) && multiset(r[x].labels) == multiset(objs[x].labels)
      && r[x] == objs[x].(labels := r[x].labels, labelValue := Get(resolved.entries, MaxLabel(objs[x].labels)))
    ensures Prepared(r)
  {
    forall x | 0 <= x < |r| ensures r[x].labels != [] && r[x].labelValue != NoLabel {
      EveryMentionLabelled(objs, x);
      assert objs[x].labels[0] in multiset(r[x].labels);
    }
  }

  /**
   * A preprocessed document is what the sieve's theorems assume: every mention alone in its
   * cluster (so the passes only coarsen it, whatever the pronoun test) and ids unique (so
   * the system classes partition the mentions).
   */
  lemma PreparedForSieve(r: seq<Mention>, isPronoun: Attrs -> bool)
    requires Prepared(r)
    ensures PronounsIsolated(r, isPronoun) && UniqueIds(r)
  {
    forall x, y | 0 <= x < |r| && 0 <= y < |r| && x != y ensures r[x].cluster != r[y].cluster && r[x].id != r[y].id {
      if x > y { assert r[y].id < r[x].id; }
    }
  }
}
