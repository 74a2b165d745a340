/**
 * The mention record, as the preprocessing step builds it and the sieve consumes it.
 * Python keeps one dictionary per mention and adds keys as the pipeline goes; here the
 * record has a fixed shape: `Annotated` is what the tokenizer makes, `Mention` what
 * `gen_mention_attributes` turns it into.
 */
module Mentions {

  /** The sentence context pass 2 hands to its predicates; opaque to the sieve. */
  type Sents = seq<string>

  /** The read-only part of a mention: everything the linguistic predicates may look at. */
  datatype Attrs = Attrs(
    text: string, cls: string,
    pronoun: bool, proper: bool,
    sent: int, pos: seq<string>, tag: seq<string>,
    per: bool, org: bool, loc: bool, ner: bool)

  /**
   * What a label lookup yields: one label (a Python str), a list of labels, or
   * Python's None when the looked-up key is absent.
   */
  datatype LabelValue = Label(n: nat) | Labels(ns: seq<nat>) | NoLabel

  /**
   * A mention of the sieve: `cluster` is the only field the sieve changes; `labelValue`
   * is Python's `label` key (a reserved word in Dafny), set by `put_labels`.
   */
  datatype Mention = Mention(id: nat, cluster: int, labels: seq<nat>, labelValue: LabelValue, attrs: Attrs)

  /** A mention as the tokenizer produces it; `numLabels` is 0 where Python has no key. */
  datatype Annotated = Annotated(id: nat, labels: seq<nat>, numLabels: nat, cls: string, text: string)
}
