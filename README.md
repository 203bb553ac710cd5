# Coreference graphs and stanza preprocessing for question generation

This project models the two data-preparation scripts of a graph-to-sequence
question-generation system.

- **`preprocess_stanza.py`** reads SQuAD-style topics. It flattens them into one simple record per question: title, context, question, first answer text, its character offset, and id.
  - Each record's context, question and answer are tagged by the stanza pipeline. This gives space-joined token, NER and POS lines.
  - Context tagging goes through a single-entry memo cache.
  - The script then unpacks the eight lists that `getAnnotationInfo` returns into nine names. That raises, so the pipeline always ends in an exception.
- **`annotation/annotate_coref_graphs.py`** fuses three things into one adjacency map per document:
  - a coreference prediction, with the representative span of a cluster first and then its mentions;
  - the dependency parse of the predicted tokens;
  - links between the roots of adjacent sentences.

  The result is `{g_features, g_adj, num_edges}`. The driver aborts the whole dataset at the first instance whose token count differs from the graph's.

Dafny layout:

| File | Contents |
|---|---|
| `wrappers.dfy` | `Option` and `Result`, plus `Gather`: a loop that appends one result per element and lets the first exception escape. `Gather` is specified once and used for the mention loop and for the dataset loop. `Attempted` counts the elements such a loop runs before it stops. |
| `seqs.dfy` | List comprehensions, nested-loop flattening, Python slicing, `' '.join`, and `re.split(' +', ...)` with its round trip. |
| `memo_cache.dfy` | The single-entry cache as a class: a dict field plus a ghost log of the keys the model was run on. `KeysAfter` and `Misses` give the key held and the model calls after a sequence of lookups; both drivers state their cache history with them. |
| `coref_graph.dfy` | The graph fusion and its driver. |
| `preprocess_stanza.dfy` | The conversion, the annotation pass and the script's pipeline. |

The external models are function parameters:
- `predict`: the AllenNLP coreference predictor;
- `regexParse`: the spaCy pipeline behind the regex tokenizer;
- `tagParse`: the spaCy pipeline behind the whitespace tokenizer;
- `nlp`: the stanza pipeline.

Each loop of the source is a method with loop invariants. It is proved equal to a specification function, and the properties are lemmas about those functions.

Python exceptions are `Failure` values:
- `IndexError`: an empty cluster, a mention range outside the document, or a reversed mention (`end < start`), whose empty range has no first element.
- `TypeError`: `start + None`, when a span's parse has no root.
- `UnboundLocalError("answer")` / `UnboundLocalError("answer_start")`.
- `NotEnoughValuesToUnpack(9, 8)`.
- `TokenCountMismatch`.

Three behaviours of the code, all modelled as written:

- **Coreference links accumulate across clusters.** `mention_heads` is never reset between clusters. So cluster c links every mention head of clusters 0..c to its own head, not just its own mentions' heads. `CorefGraph.LinksOfMember` states this for all inputs, and `CorefGraph.MentionHeadsCarryAcrossClusters` gives a two-cluster instance. A design in which each mention links only to its own cluster's head is not what the code does.
- **`answer` and `answer_start` carry over.** They are function locals that persist across questions. A question whose answer lookup raises inside the swallowing `try` silently reuses the previous question's answer. If no earlier value exists, the append raises `UnboundLocalError`.
- **The split format is never produced.** `convert2squadsplitFormat` unpacks 8 values into 9 names.

## Model

| member | source | states |
|---|---|---|
| CorefGraph.HeadOfSentence | annotation/annotate_coref_graphs.py:67-70 | returns the index of the first token that is its own head, or None when the sentence has no root |
| CorefGraph.FirstRootNone | annotation/annotate_coref_graphs.py:67-70 | no root is found exactly when no token of the sequence is its own head |
| CorefGraph.FirstRootIsFirst | annotation/annotate_coref_graphs.py:67-70 | a root that is found is a root, and no earlier token is one |
| CorefGraph.FirstRootAppend | annotation/annotate_coref_graphs.py:61-64 | the search over two stretches finds the first stretch's root if it has one, otherwise the second's, so a sentence without a root passes the search on to the next sentence |
| CorefGraph.CorefSpanHead | annotation/annotate_coref_graphs.py:59-64 | get_coref_span_head returns the first root over all sentences of the span's parse, or None |
| CorefGraph.HeadsAgreeInRange | annotation/annotate_coref_graphs.py:93-107 | for a span inside the document, the mention rule (indexing) and the representative rule (slicing) give the same head |
| CorefGraph.RelativeHeadOf | annotation/annotate_coref_graphs.py:99 | the head is the span start plus the relative root; a span parse without a root raises TypeError |
| CorefGraph.MentionHeadOf | annotation/annotate_coref_graphs.py:93-99 | a one-token mention's head is its start; an empty or out-of-document range raises IndexError; otherwise the joined document tokens are parsed |
| CorefGraph.ClusterHeadOf | annotation/annotate_coref_graphs.py:103-107 | a one-token representative's head is its start; otherwise the sliced text is parsed, and slicing never raises |
| CorefGraph.OneTokenMention | annotation/annotate_coref_graphs.py:94-95 | a mention with start == end contributes exactly its start index to `mention_heads`, for any document and parser, without a parse |
| Wrappers.GatherSucceeds | annotation/annotate_coref_graphs.py:92-99 | the mention loop (and the dataset loop) completes exactly when no element raises |
| Wrappers.GatherValues | annotation/annotate_coref_graphs.py:92-99 | a completed loop holds one result per element, in order, each that element's result |
| Wrappers.GatherFirstError | annotation/annotate_coref_graphs.py:92-99 | a failing loop raises the error of the first element that fails, and every earlier element succeeded |
| Wrappers.GatherSticky | annotation/annotate_coref_graphs.py:92-99 | once a prefix of the loop raises, the whole loop raises the same error |
| CorefGraph.GatherMentionHeads | annotation/annotate_coref_graphs.py:92-99 | appends the heads of a cluster's mentions to `mention_heads` in order, or raises the first mention's error |
| CorefGraph.LinkAll | annotation/annotate_coref_graphs.py:109-110 | appends one `(mention, head)` pair per gathered mention head, in order |
| CorefGraph.CorefConnections | annotation/annotate_coref_graphs.py:85-110 | the cluster loop returns the `span_connection` of the cluster-loop specification, or the first exception it raises |
| CorefGraph.CorefLinksSticky | annotation/annotate_coref_graphs.py:89-110 | an exception in the first n clusters is the exception of the whole loop |
| CorefGraph.CorefLinksSucceeds | annotation/annotate_coref_graphs.py:89-110 | the cluster loop succeeds exactly when every cluster is non-empty and all its mentions and its representative have heads |
| CorefGraph.AccumulatedLinks | annotation/annotate_coref_graphs.py:86-110 | when cluster c yields mention heads hss[c] and head heads[c], `mention_heads` ends as all mention heads in order and `span_connection` links every mention head of clusters 0..c to heads[c] |
| CorefGraph.LinksOfCount | annotation/annotate_coref_graphs.py:109-110 | cluster c adds as many links as there are mention heads in clusters 0..c |
| CorefGraph.LinksOfMember | annotation/annotate_coref_graphs.py:86-110 | (m, h) is linked exactly when m is a mention head of some cluster at or before a cluster whose head is h |
| CorefGraph.MentionHeadsCarryAcrossClusters | annotation/annotate_coref_graphs.py:86-110 | with two clusters of one-token spans, the second head also receives a link from the first cluster's mention |
| CorefGraph.DepArcsExact | annotation/annotate_coref_graphs.py:122-126 | every non-root token adds exactly one entry, its index and label under its head, in token order; roots add none; nothing else is added |
| CorefGraph.NeighArcsShape | annotation/annotate_coref_graphs.py:128-132 | adjacent pair i adds entries 2i (forward) and 2i+1 (back), so k sentences add 2(k-1) entries and none when k is 0 |
| CorefGraph.GroupAt | annotation/annotate_coref_graphs.py:118-140 | the defaultdict has a key exactly for the nodes that received an entry, and each list holds that node's entries in append order |
| CorefGraph.GroupTotal | annotation/annotate_coref_graphs.py:118-140 | the lengths of the adjacency lists add up to the number of appends |
| CorefGraph.GroupHas | annotation/annotate_coref_graphs.py:118-140 | an entry is in a node's list exactly when it was appended under that node |
| CorefGraph.GraphOfCounts | annotation/annotate_coref_graphs.py:117-146 | one feature per parsed token with its text; `num_edges` equals the total list length and is (non-root tokens) + 2 x (sentences - 1) + (links) |
| CorefGraph.DependencyEdges | annotation/annotate_coref_graphs.py:124-126 | every non-root token's entry is in its head's list |
| CorefGraph.NeighEdges | annotation/annotate_coref_graphs.py:128-132 | both `neigh` entries of every pair of adjacent sentence roots are present |
| CorefGraph.CorefEdges | annotation/annotate_coref_graphs.py:134-140 | every link puts a `coref` entry in the mention head's list pointing to the cluster head |
| CorefGraph.OnlyTheseEdges | annotation/annotate_coref_graphs.py:113-146 | every entry of the map is a dependency, `neigh` or `coref` entry |
| CorefGraph.AddParse | annotation/annotate_coref_graphs.py:113-126 | the sentence loop yields the roots of the sentences, the token texts, the dependency entries and their count |
| CorefGraph.AddSentence | annotation/annotate_coref_graphs.py:122-126 | the token loop of one sentence extends features, map and counter by that sentence's tokens |
| CorefGraph.AddNeighbours | annotation/annotate_coref_graphs.py:128-132 | appends both `neigh` entries for each adjacent pair of roots, two per pair |
| CorefGraph.AddCoreferences | annotation/annotate_coref_graphs.py:134-140 | appends one `coref` entry per `span_connection` pair, in order |
| CorefGraph.AssembleGraph | annotation/annotate_coref_graphs.py:113-146 | the parse part builds the fused graph, and its counter equals the total number of entries |
| CorefGraph.ExtractSentCorefDepTree | annotation/annotate_coref_graphs.py:72-146 | an empty text gives the empty graph and leaves the cache alone; otherwise the dict ends as the single entry for this text, holding the stored prediction on a hit and the predictor's answer on a miss, the predictor runs only on a miss, and the result is the fusion of the prediction |
| CorefGraph.ExtractionIgnoresCoherentCache | annotation/annotate_coref_graphs.py:77-82 | a cache that holds only the predictor's own answers does not change the result |
| CorefGraph.AnnotateInstance | annotation/annotate_coref_graphs.py:164-172 | one instance: split on space runs, re-join with single spaces, fuse, and abort when the token count differs from the feature count; an empty re-joined text leaves the cache alone, any other ends as its single entry, with the predictor run on it only on a miss |
| CorefGraph.AnnotateNext | annotation/annotate_coref_graphs.py:163-172 | one pass of the dataset loop gives that instance's outcome whatever the (coherent) cache holds, and extends the cache's key and call history by the instance's text |
| CorefGraph.AcceptedGraphMatchesText | annotation/annotate_coref_graphs.py:164-170 | an accepted graph has one feature per split token, which is also one per token of the re-joined text |
| CorefGraph.EmptyTokensAbort | annotation/annotate_coref_graphs.py:164-170 | an empty token string splits into one empty token against the empty graph, so the run aborts |
| CorefGraph.AnnotateDataset | annotation/annotate_coref_graphs.py:161-173 | the dataset loop is the `Gather` loop over the instances, so it keeps the cache coherent, yields one graph per instance in order, or stops at the first instance that raises; the cache ends holding the last non-empty text the loop reached, and the predictor ran on exactly the texts of those instances that missed, in order |
| Wrappers.Attempted | annotation/annotate_coref_graphs.py:163-170 | a loop that completes runs every instance; one that raises runs exactly up to its first failing instance, all earlier ones succeeding |
| Wrappers.AttemptedStops | annotation/annotate_coref_graphs.py:163-170 | when instance n is the first to raise, the loop has run exactly n + 1 instances |
| MemoCache.SingleEntryCache.constructor | annotation/annotate_coref_graphs.py:15 | the cache starts empty, with no model call made |
| MemoCache.MissesSnoc | annotation/annotate_coref_graphs.py:77-82 | one more lookup leaves its key as the only key, and runs the model on it exactly when it is not the key held before |
| MemoCache.SingleEntryCache.Lookup | annotation/annotate_coref_graphs.py:77-82 | a hit returns the stored value; a miss empties the dict, runs the model once and stores its answer as the only entry; a coherent cache stays coherent |
| Seqs.PySlice | annotation/annotate_coref_graphs.py:107 | Python slicing clamps out-of-range bounds and never raises |
| Seqs.SplitSpaceRunsShape | annotation/annotate_coref_graphs.py:164 | splitting on space runs gives at least one piece, no piece with a space, and no empty piece except the first and the last |
| Seqs.SplitJoin | annotation/annotate_coref_graphs.py:164-166 | splitting undoes the single-space join of every list a split can produce |
| Seqs.SplitJoinSplit | annotation/annotate_coref_graphs.py:164-166 | re-splitting the single-space join of the split tokens gives the same tokens |
| PreprocessStanza.TryAnswer | preprocess_stanza.py:74-85 | each assignment of the try block that completes rebinds its local; a failed lookup leaves both later locals as they were |
| PreprocessStanza.FirstCandidateUsed | preprocess_stanza.py:74-85 | a first candidate with both keys rebinds both locals; the candidates are `plausible_answers` exactly for impossible questions |
| PreprocessStanza.LatestAnswer | preprocess_stanza.py:74-85 | `answer` holds a exactly when some question stored a and no later question's lookup completed |
| PreprocessStanza.LatestAnswerStart | preprocess_stanza.py:74-85 | the same for `answer_start` |
| PreprocessStanza.QaSitesMember | preprocess_stanza.py:71-73 | the question loop visits exactly the paragraph's questions, each with the paragraph's title and context |
| PreprocessStanza.ParagraphSitesMember | preprocess_stanza.py:69-73 | the paragraph loop visits exactly the questions of the topic's paragraphs |
| PreprocessStanza.SitesMember | preprocess_stanza.py:67-73 | the three loops visit exactly the questions of all paragraphs of all topics, with their own title and context |
| PreprocessStanza.ResolveSticky | preprocess_stanza.py:65-96 | once the conversion raises, later questions do not change the exception |
| PreprocessStanza.ResolveOutcome | preprocess_stanza.py:65-96 | the conversion succeeds exactly when every question finds both locals bound, and otherwise raises the first failing question's UnboundLocalError |
| PreprocessStanza.ResolveRecords | preprocess_stanza.py:86-95 | a successful conversion yields one record per question, in order, each the one built at that question |
| PreprocessStanza.RecordContents | preprocess_stanza.py:86-95 | a record carries its question's title, context, question and id, and the locals' values at that point |
| PreprocessStanza.PlausibleAnswerExtracted | preprocess_stanza.py:74-79 | an impossible question with only `plausible_answers` takes its first plausible answer and offset |
| PreprocessStanza.FirstQuestionUnanswered | preprocess_stanza.py:86-95 | when the very first question has no answer text, the conversion raises UnboundLocalError for `answer` |
| PreprocessStanza.ConvertQas | preprocess_stanza.py:71-95 | the question loop continues the conversion over one paragraph's questions and carries the locals |
| PreprocessStanza.ConvertParagraphs | preprocess_stanza.py:69-95 | the paragraph loop continues the conversion over one topic's paragraphs |
| PreprocessStanza.Convert2SimpleFormat | preprocess_stanza.py:65-96 | convert2simpleFormat returns the records of the conversion specification, or its first exception |
| PreprocessStanza.SentenceTokenTexts | preprocess_stanza.py:127-130 | the texts of all tokens, sentence after sentence |
| PreprocessStanza.ContextColumns | preprocess_stanza.py:140-147 | the token, NER and POS columns of the context, one entry per token in each |
| PreprocessStanza.AppendAnnotations | preprocess_stanza.py:125-152 | one instance appends its id, its three context lines, its answer offset and its question and answer token lines, and leaves the position list alone |
| PreprocessStanza.CollectLengths | preprocess_stanza.py:99-155 | each list gains one entry per instance, and `annotation1_AnswerStartAndEndPosition` stays empty |
| PreprocessStanza.CollectAt | preprocess_stanza.py:125-152 | entry k of every list comes from the k-th instance |
| PreprocessStanza.AnnotationsLengths | preprocess_stanza.py:99-155 | the seven filled lists each have one entry per instance; the eighth is empty |
| PreprocessStanza.ContextColumnsAt | preprocess_stanza.py:140-151 | entry k of the id and context lists is instance k's id and its context's token, NER and POS lines |
| PreprocessStanza.QuestionColumnsAt | preprocess_stanza.py:127-152 | entry k of the other lists is instance k's answer offset and its question's and answer's token lines |
| PreprocessStanza.LookupContext | preprocess_stanza.py:117-123 | the context is tagged through the cache, which runs the tagger exactly when the context is not the key it holds |
| PreprocessStanza.GetAnnotationInfo | preprocess_stanza.py:99-155 | getAnnotationInfo returns the annotation specification; the cache ends holding the last context, and the tagger ran on exactly the contexts that missed, in order |
| PreprocessStanza.RepeatedContextTaggedOnce | preprocess_stanza.py:117-123 | consecutive instances that share a context run the tagger on it at most once |
| PreprocessStanza.ContextMissesBound | preprocess_stanza.py:117-123 | the tagger runs on at most one context per instance, and only on the data's contexts |
| PreprocessStanza.TokenLineSplits | preprocess_stanza.py:149 | a context's token line splits back into its tokens when no token is empty or holds a space |
| PreprocessStanza.Convert2SquadSplitFormat | preprocess_stanza.py:190-192 | the annotation pass runs, so the cache ends holding the last context and the tagger ran on exactly the contexts that missed; then unpacking 8 lists into 9 names raises |
| PreprocessStanza.Preprocess | preprocess_stanza.py:233-235 | the pipeline raises the conversion's exception with the cache untouched, or else the unpack error after the annotation pass over the converted records, whose cache keys and tagger calls are stated |

## Left out

- The external models (AllenNLP predictor, spaCy pipelines, stanza pipeline) are opaque function parameters. Their internals, and loading them, are outside the model.
- The regular expression of `WhitespaceRegexTokenizer` (line 47 of annotation/annotate_coref_graphs.py) is not modelled. `regexParse` maps a span text directly to its parse.
- The whitespace tokenizer's own lookup (lines 25-34) is modelled as a second `Lookup` in `ExtractSentCorefDepTree`. That lookup always hits.
- Command-line parsing, JSON reading and writing, `tqdm`, `print`, and the exception message are left out: they are I/O. `TokenCountMismatch` carries the two counts instead of the message.
- `AnnotateDataset` takes `dataset[start:end]` as its input; the slice bounds come from the command line.
- The write of the graph into the instance (line 172) is left out. The model returns the graphs in order instead of the mutated instances.
- Missing dictionary keys are ruled out by the record types. The exceptions are `answers`, `plausible_answers` and the keys of their first element, which are `Option`s because the `try` blocks catch their absence.
- Python's negative indices are not modelled: span bounds are `nat`.
- Line 102 has no effect (a join whose result is discarded). It is omitted.
- The root test compares index and text. It is modelled as index equality, since the same index is the same token.
- The loop of `convert2squadsplitFormat` (lines 194-216) is left out. It is unreachable because the unpack on line 192 always raises.
- `Preprocess` takes the loaded JSON to be the list of topics. The format described at lines 15-53 of preprocess_stanza.py is an object with `version` and `data`; on that object, line 67 iterates its keys and line 68 raises a `TypeError`. That failure is not modelled.
- `g_adj` is a Dafny `map`, which has no key order. The order in which the `defaultdict` first saw its keys, which `json.dump` writes out, is not modelled; each key's list keeps its append order.
- Each script has its own module-level cache. Each pipeline is given its own `SingleEntryCache`, and the transparency results require it to start coherent, as an empty cache is.
