# Indonesian coreference: preprocessing and the multi-pass sieve, in Dafny

This project models the two core files of indocoref, a rule-based coreference resolver for
Indonesian text:

- **Preprocessing** (`src/utils/text_preprocess.py`, class `TextPreprocess`) turns a
  SACR-annotated document into a list of mention records. It has six steps:
  - `tokenize_by_regex` splits the annotation on `{ : = }` and makes one record per `{`;
  - `merge_nested_labels` folds nested mentions into the mentions around them;
  - `gen_mention_attributes` gives each mention its attributes and its own cluster;
  - `map_label_by_id` builds a map from each mention's largest label to its other labels;
  - `merge_labelmap` follows the label chains in that map;
  - `put_labels` gives every mention its gold label.
- **The multi-pass sieve** (`src/mpsieve.py`, class `MultiPassSieve`) merges clusters in
  six fixed passes:
  - pass 1, exact match;
  - pass 2, precise constructs;
  - pass 3, strict head match, where the first match wins;
  - pass 4, proper head match;
  - pass 5, relaxed head match;
  - pass 6, pronouns, by a two-cursor walk from the right.

  It then builds the system's equivalence classes (cluster to mention ids) and the gold
  classes (label to mention ids).

The sieve is a `class` whose `clusters` field the passes update. Every pass method is
proved equal to a pure function of the old clusters (`SieveSpec`). What the passes promise
is proved about those functions:

- every pass only coarsens the partition;
- passes 1 to 5 leave pronouns alone;
- the pairwise passes join every matching pair;
- in pass 3 the first match wins;
- pass 6 links a pronoun only to an eligible antecedent.

The class builders are proved to compute the reference definitions in `Equivalence`. The
preprocessing steps are proved the same way:

- the tokenizer against a recursive scan;
- the nested-label fold against a recursive reference, `NestedMerged`, whose result is
  proved to track the tokenizer's output;
- the label-map builders against functions whose meaning is proved as lemmas.

`Preprocess.PreprocessDocument` composes all six steps for one document and is proved to
compute their composition, `Preprocess.Preprocessed`.

The linguistic tests (`FeatureUtils`, `PairFeatureUtils`) are parameters: the `Oracle` of
the sieve and the `Features` of preprocessing. File input and output are left to the caller.

The one place where the code looks wrong (`merge_labelmap`) is modelled both as written and
as evidently intended; see "Findings".

## Model

| member | source | states |
|---|---|---|
| Text.TrimStartShape | src/utils/text_preprocess.py:73 | `lstrip` keeps a suffix of the text, removes only whitespace, and leaves no whitespace in front |
| Text.TrimEndShape | src/utils/text_preprocess.py:73 | `rstrip` keeps a prefix, removes only whitespace, and leaves no whitespace at the end |
| Text.StripShape | src/utils/text_preprocess.py:88 | `strip()` is the slice of the text between two blank runs, neither starts nor ends with whitespace, and is empty exactly when the text is blank (the fold test of `merge_nested_labels`) |
| Text.StripUnchanged | src/utils/text_preprocess.py:73 | text with no whitespace at either end is left unchanged by `strip()` |
| Tokenize.SplitKeepShape | src/utils/text_preprocess.py:45 | `re.split` with a capturing group gives an odd number of pieces: delimiter-free text at even positions, one delimiter at odd positions |
| Tokenize.SplitKeepJoins | src/utils/text_preprocess.py:45 | joining the pieces gives back the annotation (nothing is lost) |
| Tokenize.SplitKeepPlainPrefix | src/utils/text_preprocess.py:45 | text without delimiters in front only extends the first piece |
| Tokenize.SplitKeepDelimited | src/utils/text_preprocess.py:45 | text, a delimiter, then more text split into the text, the delimiter, and the split of the rest |
| Tokenize.ParseDecimal | src/utils/text_preprocess.py:64 | a label parses exactly when it is a non-empty string of ASCII digits |
| Tokenize.DecimalRoundTrip | src/utils/text_preprocess.py:64 | printing a label in decimal and parsing it gives the label back |
| Tokenize.IndexOf | src/utils/text_preprocess.py:69 | the index found is the first occurrence of the character; none is found exactly when it does not occur |
| Tokenize.ParseValueSound | src/utils/text_preprocess.py:69-71 | a match of `^"([^"]*)" (.*)$` means the token is a quoted class without `"`, a space and a text without a newline, optionally followed by one final newline |
| Tokenize.ParseValueRoundTrip | src/utils/text_preprocess.py:69-71 | such a token matches and yields its class and text back |
| Tokenize.ParseValueRoundTripNewline | src/utils/text_preprocess.py:69-71 | the same with one final newline, which `$` accepts |
| Tokenize.ReadMention | src/utils/text_preprocess.py:54-74 | the record read at a `{`: id the running id, its one label the next token without its first character read in decimal, `num_labels` the depth less one when the depth is above one and 0 otherwise, class the quoted group and text the stripped second group of the token four further on; each error (no label token, a label that is not decimal, no value token, a value that does not match) occurs exactly when its condition holds |
| Tokenize.ScanNumbers | src/utils/text_preprocess.py:46-76 | the records made are numbered on from the running id, one label each |
| Tokenize.TokenizeByRegex | src/utils/text_preprocess.py:44-76 | the loop returns the scan's result (records or the error Python raises), and records are numbered 0, 1, 2, … |
| Labels.InsertSorts | src/utils/text_preprocess.py:125 | inserting into an ascending list keeps it ascending and adds exactly the new label |
| Labels.SortLabelsSorts | src/utils/text_preprocess.py:125 | `sorted(labels, key=int)` is ascending and a permutation of the labels |
| Labels.MaxLabel | src/utils/text_preprocess.py:125-127 | the largest label is one of the labels and no label is above it |
| Labels.SortedLastIsMax | src/utils/text_preprocess.py:125-127 | the last element of the sorted list is the largest label |
| NestedLabels.RemoveAt | src/utils/text_preprocess.py:92 | removing the element at an index shifts the later elements down by one and keeps the earlier ones |
| NestedLabels.LabelBagRemove | src/utils/text_preprocess.py:92 | removing a mention removes exactly its labels from the document's label multiset |
| NestedLabels.LabelBagFold | src/utils/text_preprocess.py:89-92 | moving a blank mention's labels to the nested one and removing the blank mention keeps the document's label multiset |
| NestedLabels.TracksStart | src/utils/text_preprocess.py:78-80 | the tokenizer's list tracks itself, every record kept in place |
| NestedLabels.TracksUpdate | src/utils/text_preprocess.py:95-101 | changing one record in a way that only grows it (text longer at the end, same labels, same id, class set if empty, fewer nestings) keeps the tracking invariant |
| NestedLabels.TracksFold | src/utils/text_preprocess.py:88-94 | folding a blank mention into the nested one and removing it keeps the tracking invariant (labels only prepended, removed records blank, ids in order, label multiset kept) |
| NestedLabels.DroppedRemove | src/utils/text_preprocess.py:92 | after removing a blank record, every record that is gone is still a blank one |
| NestedLabels.Appended | src/utils/text_preprocess.py:95-99 | after the append the outer mention's text is its old text extended at the end, and nothing else of the record changed |
| NestedLabels.AppendedContains | src/utils/text_preprocess.py:95-99 | after the append the outer mention's text contains the nested text |
| NestedLabels.Folded | src/utils/text_preprocess.py:88-92 | the blank branch removes one record, and the nested mention, now one place down, has one nesting less |
| NestedLabels.Extended | src/utils/text_preprocess.py:95-101 | the other branch keeps the length, and the nested mention has one nesting less |
| NestedLabels.Step | src/utils/text_preprocess.py:84-104 | one visit to a nested mention keeps the cursor in range and makes progress: the cursor moves down, or stays and its nesting count drops |
| NestedLabels.StepKeepsFlat | src/utils/text_preprocess.py:84-104 | a visit leaves every mention right of the new cursor without nesting when that held right of the old one |
| NestedLabels.MergeFromFlatTail | src/utils/text_preprocess.py:81-107 | from any cursor with no nesting to its right, the rest of the loop leaves no nesting after the first mention |
| NestedLabels.NestedMergedFlatTail | src/utils/text_preprocess.py:78-108 | after `merge_nested_labels` only the first mention can still be nested (a fold with `i` on the first mention ends the loop) |
| NestedLabels.MergeFromFlat | src/utils/text_preprocess.py:81-107 | without nesting the rest of the loop changes nothing |
| NestedLabels.NestedMergedFlat | src/utils/text_preprocess.py:78-108 | a document without nesting is returned unchanged |
| NestedLabels.FoldedTracks | src/utils/text_preprocess.py:88-94 | the blank branch keeps the tracking invariant, without the blank mention's position |
| NestedLabels.ExtendedTracks | src/utils/text_preprocess.py:95-101 | the other branch keeps the tracking invariant, at the same positions |
| NestedLabels.StepTracks | src/utils/text_preprocess.py:84-104 | a visit keeps the tracking invariant |
| NestedLabels.MergeFromTracks | src/utils/text_preprocess.py:81-107 | the rest of the loop keeps the tracking invariant |
| NestedLabels.NestedMergedTracks | src/utils/text_preprocess.py:78-108 | the result tracks the tokenizer's list: it is no longer, each record is an input record grown (labels prepended, text extended, class filled, fewer nestings), in order, only blank records disappear, and the label multiset is kept |
| NestedLabels.FoldExample | src/utils/text_preprocess.py:88-94 | a blank mention with label 3 before a once-nested mention with label 5 folds into a single record with labels 3 and 5, no nesting left |
| NestedLabels.ExtendExample | src/utils/text_preprocess.py:95-104 | a mention before a once-nested one gains its text after a space, and the nested one takes the outer class and has no nesting left |
| NestedLabels.Unnest | src/utils/text_preprocess.py:84-104 | the loop body at a nested mention, with its in-place updates of `before` and `after`, the removal and the cursor moves, computes exactly `Step`, and keeps the cursors one apart |
| NestedLabels.MergeNestedLabels | src/utils/text_preprocess.py:78-108 | the loop computes `NestedMerged`, the recursive reference, and its result tracks the input |
| Attributes.GenMentionAttributes | src/utils/text_preprocess.py:110-120 | each mention gets the extractors' features, the four class flags and its position as its cluster, and nothing else changes (`AttributedAll`) |
| Attributes.AttributedIsolated | src/utils/text_preprocess.py:115 | afterwards no two mentions share a cluster, so no pronoun shares one |
| Attributes.NamedEntityFlags | src/utils/text_preprocess.py:116-119 | at most one of person, organisation and place is set, each implies the named-entity flag, and that flag is set exactly when the class contains `named-entity` |
| LabelMaps.Put | src/utils/text_preprocess.py:127-129 | writing a key keeps the map well formed (each key once in insertion order, order and keys agree) |
| LabelMaps.WriteEntries | src/utils/text_preprocess.py:123-129 | the first loop writes, for each mention in turn, its other labels under its largest label |
| LabelMaps.CollapseSingletons | src/utils/text_preprocess.py:130-132 | the second loop replaces every one-element list by its element and leaves order and keys alone |
| LabelMaps.MapLabelById | src/utils/text_preprocess.py:122-134 | `map_label_by_id` computes `MapLabels`, the two loops one after the other |
| LabelMaps.SortedSplit | src/utils/text_preprocess.py:125-127 | the sorted labels are the other labels (ascending) followed by the largest |
| LabelMaps.EntryMeaning | src/utils/text_preprocess.py:125-132 | a mention's entry is a lone label when it has one label; otherwise its entry holds exactly its other labels, a list exactly when there are more than two, in ascending order, none above the key |
| LabelMaps.FirstLoopShape | src/utils/text_preprocess.py:123-129 | after the first loop the map is well formed and its keys are exactly the mentions' largest labels |
| LabelMaps.MapLabelsKeys | src/utils/text_preprocess.py:122-134 | the keys of the final map are exactly the mentions' largest labels, each once |
| LabelMaps.MapLabelsLastWrite | src/utils/text_preprocess.py:123-132 | the last mention with a given largest label decides that key's value |
| LabelMaps.MapLabelsValues | src/utils/text_preprocess.py:122-134 | no value is None and no value names a label above its key |
| LabelMaps.Chase | src/utils/text_preprocess.py:139-148 | the `while` loop with its two `break`s rewrites only the key being walked, to `ChaseKey` |
| LabelMaps.ChaseKey | src/utils/text_preprocess.py:139-148 | the walk from one key: a value that is not a single label is kept as it is |
| LabelMaps.ChaseIfLabel | src/utils/text_preprocess.py:137-148 | one turn of the `for` loop rewrites exactly the key being visited, to `ChaseKey`, so a value that is not a single label leaves the map as it was |
| LabelMaps.MergeLabelmapAsWritten | src/utils/text_preprocess.py:136-149 | `merge_labelmap` as written rewrites the keys one after the other in insertion order (`ChaseAll`), keeping the order and the keys |
| LabelMaps.DanglingChain | src/utils/text_preprocess.py:136-149 | as written, a chain whose end is not a key resolves to None or to that end depending on its parity; the corrected merge gives the end in both cases |
| LabelMaps.OrderAndListChains | src/utils/text_preprocess.py:136-149 | as written, a key rewritten after the key it points to reads the None already stored there, and a chain ending at a list stores the label one link short of it; the corrected merge gives the end of the chain |
| LabelMaps.ChaseFromRoot | src/utils/text_preprocess.py:141-148 | on a chain that ends at a label mapped to itself, the two-links-per-turn walk stops exactly at that label |
| LabelMaps.ChaseKeyRoot | src/utils/text_preprocess.py:138-148 | the walk from a key whose chain ends at such a label, or whose value is no single label, stores the end of the chain |
| LabelMaps.ChaseAllResolved | src/utils/text_preprocess.py:137-148 | when every chain from a single-label key ends at a key, rewriting the remaining keys as written resolves the whole map |
| LabelMaps.MergeLabelmapAgrees | src/utils/text_preprocess.py:136-149 | where every chain from a single-label key ends at a label mapped to itself, `merge_labelmap` as written computes exactly the corrected `Resolved`, whatever the key order |
| LabelMaps.Root | src/utils/text_preprocess.py:136-149 | the end of a chain is a label that maps to itself or is no key, or else the chain starts at a key; it is never above where the chain starts |
| LabelMaps.RootEnd | src/utils/text_preprocess.py:136-149 | a chain that does not end at a label ends at a list or None that is already a value in the map |
| LabelMaps.RootUpdate | src/utils/text_preprocess.py:137-148 | rewriting one key to the end of its chain moves the end of no chain, so the keys can be rewritten in any order |
| LabelMaps.FindRoot | src/utils/text_preprocess.py:140-147 | the link-by-link walk reaches the end of the chain |
| LabelMaps.MergeLabelmap | src/utils/text_preprocess.py:136-149 | the corrected merge rewrites every key to the end of its chain (`Resolved`) and keeps the order and the keys |
| LabelMaps.ResolvedMeaning | src/utils/text_preprocess.py:136-149 | after the corrected merge, a key linked to a label resolves as that label does, no None appears unless one was already a value, and resolving again changes nothing |
| LabelMaps.PutLabels | src/utils/text_preprocess.py:151-155 | each mention's labels are sorted (same multiset), its gold label is the map's value for its largest label (None when missing), and nothing else changes (`LabelsPut`) |
| LabelMaps.EveryMentionLabelled | src/utils/text_preprocess.py:151-155 | with the corrected merge, every mention's largest label is a key and its value is not None |
| Preprocess.LabelledAfterPut | src/utils/text_preprocess.py:30-32 | the labelled mentions keep their ids and clusters, have sorted non-empty labels, and all carry a gold label |
| Preprocess.MergedLabelled | src/utils/text_preprocess.py:27-28 | after the fold every mention still has a label and ids keep the document order |
| Preprocess.AttributedAllKeeps | src/utils/text_preprocess.py:28-29 | the attributed mentions keep those labels and ids and each sits in the cluster equal to its position |
| Preprocess.LabelledPrepared | src/utils/text_preprocess.py:30-32 | building, resolving and putting the labels on such mentions sorts their labels and gives each a gold label, keeping ids and clusters |
| Preprocess.PreprocessedPrepared | src/utils/text_preprocess.py:27-32 | a document preprocesses exactly when it tokenizes, and then each mention is alone in the cluster equal to its position, ids increase, labels are sorted and every gold label is set |
| Preprocess.PreprocessDocument | src/utils/text_preprocess.py:27-32 | one document through all six steps computes `Preprocessed`, their composition: the tokenizer's error for a malformed annotation, otherwise the folded, attributed and labelled mentions |
| Preprocess.PreparedForSieve | src/utils/text_preprocess.py:27-32 | a preprocessed document meets the sieve's preconditions: no pronoun shares a cluster, and ids are unique |
| MpSieve.MultiPassSieve.constructor | src/mpsieve.py:19-25 | a new sieve has no clusters |
| SieveSpec.Merged | src/mpsieve.py:49-55 | after a merge both mentions are in the first one's cluster, every member of the second one's old cluster has moved there, others are unchanged, and the partition only coarsens |
| SieveSpec.MergeIdempotent | src/mpsieve.py:49-55 | merging the same pair twice is the same as merging it once |
| SieveSpec.MergeTransitive | src/mpsieve.py:49-55 | merging a with b and then b with c puts all three together |
| SieveSpec.MergedKeepsPronouns | src/mpsieve.py:49-55 | merging two non-pronouns moves no pronoun and leaves pronouns alone in their clusters |
| MpSieve.MultiPassSieve.MergeCluster | src/mpsieve.py:49-55 | `merge_cluster` on the field computes `Merged` |
| MpSieve.MultiPassSieve.PairwisePass | src/mpsieve.py:58-68 | the two nested loops shared by passes 1, 2, 4 and 5 compute `PairwiseFrom` |
| MpSieve.MultiPassSieve.Pass1 | src/mpsieve.py:58-68 | pass 1 is the pairwise scan with exact match |
| MpSieve.MultiPassSieve.Pass2 | src/mpsieve.py:71-81 | pass 2 is the pairwise scan with appositive, copulative (given the sentences) or abbreviation |
| MpSieve.MultiPassSieve.Pass3 | src/mpsieve.py:84-98 | pass 3 merges each antecedent with its first qualifying candidate only, then stops that scan |
| MpSieve.MultiPassSieve.Pass4 | src/mpsieve.py:101-111 | pass 4 is the pairwise scan with full proper head match |
| MpSieve.MultiPassSieve.Pass5 | src/mpsieve.py:114-124 | pass 5 is the pairwise scan with relaxed match |
| MpSieve.MultiPassSieve.Pass6 | src/mpsieve.py:127-149 | the two-cursor `while` loop computes `PronounPass` |
| SieveSpec.MergeScanCoarsens | src/mpsieve.py:63-68 | the inner scan only coarsens the partition |
| SieveSpec.PairwiseFromCoarsens | src/mpsieve.py:58-68 | a pairwise pass only coarsens the partition |
| SieveSpec.MergeScanKeepsPronouns | src/mpsieve.py:63-68 | the inner scan from a non-pronoun moves no pronoun |
| SieveSpec.PairwiseFromKeepsPronouns | src/mpsieve.py:58-68 | a pairwise pass moves no pronoun and keeps pronouns alone |
| SieveSpec.MergeStepJoins | src/mpsieve.py:65-68 | one step of the scan puts the antecedent and a matching non-pronoun candidate in one cluster |
| SieveSpec.MergeScanJoins | src/mpsieve.py:63-68 | after the inner scan the antecedent shares its cluster with every later non-pronoun it matches |
| SieveSpec.PairwiseFromJoins | src/mpsieve.py:58-68 | after a pairwise pass any two non-pronouns that match (earlier one first) share a cluster |
| SieveSpec.FirstQualifier | src/mpsieve.py:89-98 | the candidate found qualifies, and none before it does |
| SieveSpec.FirstMatchWins | src/mpsieve.py:89-98 | pass 3's scan merges the antecedent with exactly its first qualifying candidate, or changes nothing |
| SieveSpec.FirstMatchScanCoarsens | src/mpsieve.py:89-98 | pass 3's scan only coarsens and, from a non-pronoun, moves no pronoun |
| SieveSpec.FirstMatchFromCoarsens | src/mpsieve.py:84-98 | pass 3 only coarsens and moves no pronoun |
| SieveSpec.PronounPassFromLinks | src/mpsieve.py:127-149 | pass 6 changes a mention's cluster only when it is a pronoun, to the cluster of an eligible earlier antecedent |
| SieveSpec.PronounPassLinks | src/mpsieve.py:127-149 | the same for the whole pass, which adds no new cluster id |
| SieveSpec.PronounPassCoarsens | src/mpsieve.py:127-149 | when no pronoun shares its cluster, pass 6 only coarsens |
| SieveSpec.Passes1To5Coarsen | src/mpsieve.py:35-39 | passes 1 to 5 in order coarsen, and move no pronoun that starts alone |
| SieveSpec.SievePassesCoarsen | src/mpsieve.py:35-40 | the six passes coarsen any partition in which no pronoun shares its cluster |
| SieveSpec.AfterPass1Coarsen | src/mpsieve.py:35-40 | passes 2 to 6 never split what pass 1 joined |
| SieveSpec.SievePassesJoinExact | src/mpsieve.py:35-40 | after all six passes, two non-pronouns with an exact match share a cluster |
| Equivalence.MembersIff | src/mpsieve.py:151-161 | an id is in a cluster's class exactly when a mention with that id is in that cluster |
| Equivalence.MembersNonEmpty | src/mpsieve.py:151-161 | a class is non-empty exactly when its cluster is in use |
| Equivalence.MembersPartition | src/mpsieve.py:151-161 | with unique ids, each mention's id is in its own cluster's class and in no other |
| Equivalence.SystemClassesSnoc | src/mpsieve.py:153-159 | one more mention appends its id to its own cluster's class only |
| MpSieve.MultiPassSieve.BuildMpsEquivalentClass | src/mpsieve.py:151-161 | the classes built are keyed by the clusters in use, each holding its mentions' ids in order |
| Equivalence.BucketKeys | src/mpsieve.py:166-168 | a label value goes to one bucket per label of a list, or to one bucket, and never to a list key |
| Equivalence.DedupProperties | src/mpsieve.py:171-174 | a bucket keeps each id once, and every id that was appended |
| Equivalence.BucketsSoFarStep | src/mpsieve.py:170-174 | one turn of the inner loop appends the id to the bucket unless it is there, keeping the other buckets |
| Equivalence.GoldClassesSnoc | src/mpsieve.py:165-174 | handling a mention's buckets extends the gold classes by that mention |
| Equivalence.GoldClassesMeaning | src/mpsieve.py:163-176 | the gold classes: no id twice in a bucket, and an id is in a bucket exactly when a mention with that id has a label value that goes to that bucket |
| Equivalence.CarriersOnly | src/mpsieve.py:170-174 | every id in a bucket comes from a mention whose label value goes there |
| Equivalence.CarrierAt | src/mpsieve.py:170-174 | every mention whose label value goes to a bucket has its id there |
| MpSieve.MultiPassSieve.BuildGoldEquivalentClass | src/mpsieve.py:163-176 | the loops build exactly the gold classes |
| MpSieve.MultiPassSieve.Run | src/mpsieve.py:27-44 | one document: a copy of the mentions goes through the six passes in order, and both equivalence classes are built from the result and from the mentions |

## Left out

- File input and output are left to the caller:
  - reading the annotated and passage files;
  - the pickle and JSON writers;
  - the directory listing in both `__init__`s;
  - the logging in both `run`s.

  `Preprocess.PreprocessDocument` and `MpSieve.MultiPassSieve.Run` model one document each;
  the loops over files are not modelled.
- The linguistic tests in `FeatureUtils` and `PairFeatureUtils` are not part of this model,
  and neither are the `CLITICS` set or `FileUtils`. They appear as parameters:
  - the sieve's `Oracle`;
  - preprocessing's `Features`;
  - a `clitics` set.

  The sieve's tests see only a mention's read-only attributes. The preprocessing
  extractors see only the tokenized record.
- `copy_clusters` (a `deepcopy`) is a value copy, because mention records here are values.
- Pass 6's `self.clusters[...] == ""` guards are left out: a slot always holds a mention
  record, so those tests are always false.
- Tokenize.ParseDecimal: accepts only non-empty strings of the ASCII digits `0`-`9`.
  Python's `int` also accepts surrounding whitespace (`" 7"`, `"7 "`), a sign (`"+7"`,
  `"-1"`), underscores between digits (`"7_0"`) and decimal digits of other scripts
  (`"٧"`). The model reports `BadLabel` for these. Labels are natural numbers, so labels
  that differ as strings but that `int` reads alike (`07` and `7`) are conflated.
- Tokenize.TokenizeByRegex: Python keeps a label as its raw string at tokenization
  (src/utils/text_preprocess.py:64). It first calls `int` on it in `map_label_by_id`'s
  `sorted(..., key=int)` (src/utils/text_preprocess.py:125), after `merge_nested_labels`
  and `gen_mention_attributes` have run. `sorted` computes the key of every label, so a
  bad label always raises there. The model reports `BadLabel` earlier, at tokenization.
  The other errors (`MissingLabelToken` and `MissingValueToken` for Python's
  `IndexError`, and `BadValue` for its `AttributeError` on a failed match) occur at
  tokenization in both. In each case the partial list is dropped. So the kind of error
  can differ too: when a bad label comes before a later `{` that lacks its label or
  value token, Python raises the `IndexError` at tokenization, while the model returns
  `BadLabel`.
- The four named-entity flags are booleans where Python stores 1 and 0.
- `num_labels` lives in the tokenized record only. A mention without that key has 0.
- `NestedLabels.MergeNestedLabels`: `mentions.remove(before)` removes the first record
  equal to `before`, but is modelled as removal at index `i`. The two differ only when an
  earlier record equals the blank one in every field, id included, which cannot happen
  because ids are unique.
- `NestedLabels.MergeNestedLabels` returns a new list rather than mutating the caller's
  list and dictionaries in place. Python's aliasing between the input and output lists is
  not modelled.
- The label map is modelled as a value (insertion order plus entries), not a dictionary
  mutated in place.
- `MpSieve.MultiPassSieve.BuildMpsEquivalentClass` and
  `MpSieve.MultiPassSieve.BuildGoldEquivalentClass` return Dafny maps, which have no key
  order. The insertion order of Python's result dictionaries, which shows when they are
  written out, is not modelled. Each class's list of ids keeps its order.
- `LabelMaps.MergeLabelmapAsWritten` and `LabelMaps.MergeLabelmap` require every value to
  name only labels at or below its key. `map_label_by_id` always produces such a map
  (`LabelMaps.MapLabelsValues`). On other maps Python's walk may not terminate.
- The round trip of `merge_nested_labels` (re-nesting the folded mentions) is not stated.
  The input cannot be rebuilt from the output, because labels are merged and blank records
  dropped. The pass is tied to its recursive reference `NestedLabels.NestedMerged` instead,
  and its properties are proved about that function.
- In `merge_nested_labels` the cursors stay one apart (`i == j - 1`), so the reset
  `if i >= j` never fires. The loop keeps the statement, and the reference function
  follows the one cursor `j`.
- `Preprocess.PreprocessDocument` uses the corrected `merge_labelmap` (see Findings).
  The as-written version is modelled separately. The modelled pipeline therefore gives
  different gold labels from the program on the label maps the Findings row names:
  - a chain whose end is no key;
  - a key rewritten after a key it points to;
  - a chain ending at a list.

  The two agree whenever every chain from a single-label key ends at a label mapped to
  itself (`LabelMaps.MergeLabelmapAgrees`).

## Findings

| source | as written | input that shows it | evidently intended | confidence | as-written member | corrected member |
|---|---|---|---|---|---|---|
| src/utils/text_preprocess.py:136-149 | each turn follows two links and stores the label just before the first value that is not a label string, and the keys are rewritten in place in insertion order; so the result depends on the chain's parity and on which keys further down were rewritten already. The two agree only where every chain ends at a label mapped to itself | `{"5": "3"}` becomes `{"5": None}`, while `{"7": "5", "5": "3"}` becomes `{"7": "3", "5": None}`; `{"5": "3", "7": "5"}` becomes all None; `{"9": "7", "7": "5", "5": ["1", "2"]}` stores "5" under 9; a mention labelled only with 5 and 3 then gets gold label None, and one with largest label 9 lands in bucket 5 | every key resolves to the end of its chain (3 in the first three examples, the list in the last), so every mention gets a gold label | not executed | LabelMaps.MergeLabelmapAsWritten, LabelMaps.DanglingChain, LabelMaps.OrderAndListChains | LabelMaps.MergeLabelmap, LabelMaps.ResolvedMeaning, LabelMaps.MergeLabelmapAgrees |
