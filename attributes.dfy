/**
 * `gen_mention_attributes` (src/utils/text_preprocess.py): each tokenized mention becomes
 * a sieve mention. Its cluster is its position, so every mention starts alone in its
 * cluster; the four named-entity flags are read off its class; the remaining features
 * come from the feature extractors, which are parameters here.
 */
module Attributes {
  import opened Text
  import opened Mentions
  import opened SieveSpec

  /**
   * The feature extractors the pass calls: the pronoun and proper-noun tests, the
   * sentence lookup and the part-of-speech and chunk tagger.
   */
  datatype Features = Features(
    isPronoun: Annotated -> bool,
    isProperNoun: Annotated -> bool,
    findInSentence: (Annotated, Sents) -> int,
    posAndChunks: string -> (seq<string>, seq<string>))

  const PersonClass: string := "named-entity person"
  const OrganisationClass: string := "named-entity organisation"
  const PlaceClass: string := "named-entity place"
  const NamedEntity: string := "named-entity"

  /** Mention `m` at position `idx`, with its attributes filled in and no gold label yet. */
  function Attributed(m: Annotated, idx: nat, sents: Sents, f: Features): Mention {
    var (pos, tag) := f.posAndChunks(m.text);
    Mention(m.id, idx, m.labels, NoLabel, Attrs(
      m.text, m.cls,
      f.isPronoun(m), f.isProperNoun(m), f.findInSentence(m, sents), pos, tag,
      m.cls == PersonClass, m.cls == OrganisationClass, m.cls == PlaceClass,
      IsSubstring(NamedEntity, m.cls)))
  }

  /** Every mention of `ms` with its attributes, at its position. */
  function AttributedAll(ms: seq<Annotated>, sents: Sents, f: Features): seq<Mention> {
    seq(|ms|, k requires 0 <= k < |ms| => Attributed(ms[k], k, sents, f))
  }

  /** `gen_mention_attributes`: one pass over the mentions, in order. */
  method GenMentionAttributes(ms: seq<Annotated>, sents: Sents, f: Features) returns (r: seq<Mention>)
    ensures |r| == |ms|
    ensures forall k :: 0 <= k < |r| ==> r[k] == Attributed(ms[k], k, sents, f)
    ensures r == AttributedAll(ms, sents, f)
  {
    r := [];
    for idx := 0 to |ms|
      invariant |r| == idx
      invariant forall k :: 0 <= k < idx ==> r[k] == Attributed(ms[k], k, sents, f)
    {
      r := r + [Attributed(ms[idx], idx, sents, f)];
    }
  }

  /**
   * Every mention starts in a cluster of its own, whatever the pronoun test: the
   * precondition under which the sieve's first five passes leave pronouns alone.
   */
  lemma AttributedIsolated(ms: seq<Annotated>, sents: Sents, f: Features, r: seq<Mention>, isPronoun: Attrs -> bool)
    requires |r| == |ms| && forall k :: 0 <= k < |r| ==> r[k] == Attributed(ms[k], k, sents, f)
    ensures forall p, k :: 0 <= p < k < |r| ==> r[p].cluster != r[k].cluster
    ensures PronounsIsolated(r, isPronoun)
  {
  }

  /**
   * The named-entity flags: at most one of person, organisation and place is set; any of
   * them implies the general flag; and the general flag is set exactly when the class
   * contains `named-entity`.
   */
  lemma NamedEntityFlags(m: Annotated, idx: nat, sents: Sents, f: Features)
    ensures var a := Attributed(m, idx, sents, f).attrs;
      && !(a.per && a.org) && !(a.per && a.loc) && !(a.org && a.loc)
      && (a.per || a.org || a.loc ==> a.ner)
      && (a.ner <==> IsSubstring(NamedEntity, m.cls))
  {
    var a := Attributed(m, idx, sents, f).attrs;
    if a.per || a.org || a.loc {
      assert NamedEntity <= m.cls[0..];
    }
  }
}
