# node-corenlp core, modelled in Dafny

This project models the pure core of the `corenlp` JavaScript client. That client sends text to a CoreNLP server and wraps the JSON annotations it gets back in classes. The model covers six pieces:

- **Annotators** (`annotator.dfy`, `catalogue.dfy`).
  - An annotator is a name, an option map and an ordered list of prerequisite annotators.
  - `pipeline()` flattens that graph into the list of steps the server must run.
  - `pipelineOptions()` merges the options under `"<name>.<key>"`.
  - The catalogue holds the thirteen concrete annotators: tokenize, ssplit, pos, lemma, ner, parse, depparse, relation, regexner, coref, dcoref, natlog and openie.
- **Annotation tracking and hydration** (`annotable.dfy`, `sentence.dfy`, `token.dfy`).
  - Annotable text records the set of annotators it has satisfied.
  - Sentences and documents are filled from the server's JSON.
  - Each filled field family marks its annotator.
  - Each guarded accessor fails unless its annotator is marked.
  - Tokens and dependency edges (governors) are built from their records.
- **Constituency trees** (`tree_scan.dfy`, `tree.dfy`).
  - The bracketed parse string is scanned left to right with a stack of open nodes.
  - Each closed node's text is split into tag and word.
  - Nodes are linked to their parents, visited in several orders, and bound to tokens and to a language.
  - The current builder (`src/util/tree.js`) and the older copy (`src/simple/util/tree.js`) are both modelled.
- **Coreference** (`coref.dfy`). Mentions, chains, the representative mention, and binding mentions to a document's sentences and tokens by their 1-based positions.
- **Pattern expressions** (`expression.dfy`, `expression_sentence.dfy`). TokensRegex, Semgrex and Tregex results, labels and groups, and the merge of sentence tokens into match groups.
- **Properties** (`properties.dfy`). The pipeline's settings object and its `key = value` file form.

The shared module `Js` (`js.dfy`) gives the JavaScript values the client handles: `undefined`, `null`, booleans, numbers, strings, arrays and plain objects. It also covers truthiness, property reads (which throw a `TypeError` on `null` and `undefined`) and template-literal rendering. Objects keep their keys in `Object.keys` order: array-index keys (canonical decimal numbers below 2^32 - 1) come first in ascending numeric order, then every other key in insertion order.

The module `Dedup` (`uniq.dfy`) is lodash's `uniq`, keeping the first occurrence of each value. It comes with an independent scan-based reference.

A call that throws is modelled as an `Err` result.

Where the tests beside the source expect something the code does not do, the model follows the code and states the divergence as a lemma. The cases are:

- The ner and parse pipelines: `Catalogue.NerAndParseSkipTagging`.
- Which token of a dependency edge is stored as the governor: `Sentences.GovernorOrientation`.
- Token fields the reader drops: `Tokens.TokenFromJson`.
- Document accessors with no guard: `Sentences.SentenceAt`.

Some names are read the way the code evidently means them, because as written they do not resolve:

- **Step names in sentence.js.** `src/simple/sentence.js:1` imports `Tokenize`, `Lemma`, `Parse` and `DepParse` from a module that exports only a default. The four step names are taken as `tokenize`, `lemma`, `parse` and `depparse`.
- **Sentence tokens.** `Sentence` has no `token(i)` or `tokens()` method, although the tree builders, the coreference binding and the merge call them. As written each of these calls throws a `TypeError` (see "## Findings"). The main model reads the hydrated token list instead.
- **Token index.** `Token` has no `index()` method. As written the governor's JSON form throws. The main model takes the index accessor as a parameter.

## Model

| member | source | states |
|---|---|---|
| Annotators.Bare | src/simple/annotator.js:14-18 | An annotator built with the constructor's defaults runs only itself and contributes no pipeline options. |
| Annotators.OptionValueAsWritten | src/simple/annotator.js:54-57 | As written, reading an unset option whose name `Object.prototype` defines yields that inherited member. Every other read yields the stored value, or `undefined` when there is none. |
| Annotators.OptionAsWrittenAgreesOffInherited | src/simple/annotator.js:54-57 | On every option that is set, and on every name `Object.prototype` does not define, the read as written is the corrected `OptionValue`. |
| Annotators.InheritedOptionName | src/simple/annotator.js:54-57 | `option('toString')` on a bare annotator yields the inherited method, where the corrected read yields `undefined`. |
| Annotators.SetOption | src/simple/annotator.js:54-60 | A `null` or `undefined` value only reads the option. Any other value is stored under its key and returned. Every other key reads as before, and the key set grows by at most that key. |
| Annotators.FlattenMembers | src/simple/annotator.js:76-84 | A name occurs in the concatenated dependency pipelines exactly when some dependency's pipeline contains it. |
| Annotators.PipelineIsExactStepSet | src/simple/annotator.js:76-84 | `Pipeline` never repeats a step. It holds exactly the annotator's own name and the steps of its dependencies' pipelines. |
| Annotators.PipelineEndsWithOwnName | src/simple/annotator.js:76-84 | When no dependency needs the annotator itself, its name is the last step and every step of every dependency comes before it. |
| Annotators.PipelineStartsWithFirstDependency | src/simple/annotator.js:76-84 | The first dependency's pipeline is a prefix of the pipeline. |
| Annotators.LayersIsUniq | src/simple/annotator.js:76-84 | Adding each dependency's pipeline as a layer, keeping only names not seen yet, gives the same list as lodash `uniq` over the concatenation. |
| Annotators.PipelineByLayers | src/simple/annotator.js:76-84 | The pipeline is the layered accumulation of the dependency pipelines, followed by the own name unless a dependency already listed it. |
| Annotators.OwnNameNotAlwaysLast | src/simple/annotator.js:76-84 | An annotator whose first dependency has its own name keeps that earlier position, so its name is not the last step. |
| Annotators.PipelineOfTwoBare | src/simple/annotator.js:76-84 | Two bare dependencies run in declared order before the annotator. |
| Annotators.LaterDependencyNotASubsequence | src/simple/annotator.js:76-84 | A later dependency's pipeline (`b, a, q`) need not appear in its own order in the result (`a, b, q, z`), because names seen earlier keep their first place. |
| Annotators.NestedPipeline | src/simple/annotator.js:76-84 | The nested example of the annotator tests: dependencies `a` and `b`, where `b` depends on `c` and `c` depends on `d`. The pipeline is `a, d, c, b` and then the own name. |
| Annotators.Prefixed | src/simple/annotator.js:92-99 | The own options appear exactly under the keys `name + "." + key`, with their values, and under no other key. |
| Annotators.MergedKeys | src/simple/annotator.js:92-99 | A key is in the merged dependency options exactly when some dependency's pipeline options define it. |
| Annotators.MergedLastWins | src/simple/annotator.js:92-99 | On a key defined by several dependencies, the last one's value wins. |
| Annotators.PipelineOptionsOverride | src/simple/annotator.js:92-99 | The pipeline options hold the prefixed own options and the dependencies' options. The own options win over the dependencies'. Otherwise the last dependency defining a key wins. |
| Annotators.OneDependencyOverride | src/simple/annotator.js:92-99 | With one dependency, `PipelineOptions` has the dependency's keys plus the prefixed own keys. Each own option is found under its prefixed key. Every other key keeps the dependency's value. |
| Catalogue.Tokenize | src/simple/annotator/tokenize.js:16-29 | The step is `tokenize`, with no dependencies and pipeline `[tokenize]`. Its options are the defaults (language `Unspecified`; whitespace, keepeol and verbose false), with the caller's options winning. |
| Catalogue.Ssplit | src/simple/annotator/ssplit.js:18-37 | The step is `ssplit`, depending on tokenize, with pipeline `[tokenize, ssplit]`. The caller's options override the nine defaults, which include boundaryTokenRegex `\.\|[!?]+`. |
| Catalogue.Pos | src/simple/annotator/pos.js:18-29 | The step is `pos`, depending on tokenize then ssplit, with pipeline `[tokenize, ssplit, pos]`. Tokenize appears once, and the options are exactly the caller's. |
| Catalogue.Lemma | src/simple/annotator/lemma.js:19-31 | The step is `lemma`, depending on tokenize, ssplit and pos, with pipeline `[tokenize, ssplit, pos, lemma]`. The options are exactly the caller's. |
| Catalogue.Ner | src/simple/annotator/ner.js:18-35 | The step is `ner`, depending on tokenize and ssplit only, with pipeline `[tokenize, ssplit, ner]`. The defaults are useSUTime and applyNumericClassifiers true. |
| Catalogue.Parse | src/simple/annotator/parse.js:18-35 | The step is `parse`, depending on tokenize and ssplit, with pipeline `[tokenize, ssplit, parse]`. The options are exactly the caller's. |
| Catalogue.NerAndParseSkipTagging | src/simple/annotator/ner.js:30-33 | Neither the ner nor the parse pipeline runs the tagger or the lemmatiser, so neither equals the longer pipeline its test expects. |
| Catalogue.Depparse | src/simple/annotator/depparse.js:19-32 | The step is `depparse`, depending on tokenize, ssplit and pos, with pipeline `[tokenize, ssplit, pos, depparse]`. |
| Catalogue.Relation | src/simple/annotator/relation.js:22-37 | The step is `relation`, with six dependencies. Its pipeline is `[tokenize, ssplit, pos, lemma, ner, depparse, relation]`, so ner adds only its own name. |
| Catalogue.Regexner | src/simple/annotator/regexner.js:18-40 | The step is `regexner`, depending on tokenize and ssplit. The defaults are exactly validpospattern and verbose true, and the caller's options override them. |
| Catalogue.Coref | src/simple/annotator/coref.js:18-29 | The step is `coref`, depending on tokenize and ssplit, with pipeline `[tokenize, ssplit, coref]`. |
| Catalogue.Dcoref | src/simple/annotator/dcoref.js:22-37 | The step is `dcoref`, with six dependencies ending in parse. Its pipeline is `[tokenize, ssplit, pos, lemma, ner, parse, dcoref]`. |
| Catalogue.Natlog | src/simple/annotator/natlog.js:21-36 | The step is `natlog`, with five dependencies ending in depparse. Its pipeline is `[tokenize, ssplit, pos, lemma, depparse, natlog]`. |
| Catalogue.Openie | src/simple/annotator/openie.js:19-42 | The step is `openie`, whose only dependency is natlog. Its pipeline is natlog's followed by `openie`. |
| Catalogue.TokenizeOptions | src/simple/annotator/tokenize.js:16-29 | The tokenizer's pipeline options are its defaults, overridden by the caller's options, under `tokenize.`. |
| Catalogue.SsplitOptions | src/simple/annotator/ssplit.js:18-37 | The sentence splitter's pipeline options are the tokenizer defaults under `tokenize.`, then its own defaults overridden by the caller's options under `ssplit.`. |
| Catalogue.PosPipelineOptions | src/simple/annotator/pos.js:18-29 | The tagger's pipeline options hold every tokenize default under `tokenize.`, every ssplit default under `ssplit.` and the caller's options under `pos.`, and nothing else. |
| Catalogue.OpeniePipelineOptions | src/simple/annotator/openie.js:19-42 | Open IE's pipeline options are natlog's plus the caller's options under `openie.`. Every other key has natlog's value. |
| Tracking.SetLanguageISO | src/simple/annotable.js:29-39 | The language reads back as set, and the text and marks are untouched. |
| Tracking.AddAnnotator | src/simple/annotable.js:45-47 | After `addAnnotator(a)`, `a` is met and every annotator met before still is. The text and language are kept. |
| Tracking.RemoveAnnotator | src/simple/annotable.js:61-63 | After `removeAnnotator(a)`, `a` is not met and nothing new is met. The text and language are kept. |
| Tracking.EqualsToIsSameMark | src/simple/annotator.js:36-38 | `equalsTo` is sameness for the tracker. On fresh text, adding `b` makes `a` met exactly when `a.equalsTo(b)`. Two equal annotators are met together and removed together. |
| Tracking.AddAnnotators | src/simple/annotable.js:53-55 | The marks grow by exactly the names of the listed annotators. |
| Tracking.AddAnnotatorsSnoc | src/simple/annotable.js:53-55 | Adding a list is adding its elements one after another. |
| Tracking.HasAnyAnnotator | src/simple/annotable.js:79-83 | True exactly when some listed annotator's name is marked, so false for an empty list. |
| Tracking.NewHoldsNothing | src/simple/annotable.js:11-22 | New text keeps its text and has no annotator marked. |
| Tracking.AddThenHas | src/simple/annotable.js:45-47 | After marking `a`, every annotator with `a`'s name is met. Every other name is as before. |
| Tracking.AddIdempotent | src/simple/annotable.js:45-47 | Marking twice is marking once. |
| Tracking.RemoveThenHas | src/simple/annotable.js:61-63 | After unmarking `a`, `a` is not met, and every other name is as before. |
| Tracking.HasAnnotatorIsSingleHasAny | src/simple/annotable.js:70-72 | The corrected membership test `HasAnnotator` agrees with `hasAnyAnnotator` on a one-element list. |
| Tracking.AsWrittenDiffersOnlyOnInherited | src/simple/annotable.js:70-72 | The membership test as written (`HasAnnotatorAsWritten`) agrees with the corrected `HasAnnotator` on every name that `Object.prototype` does not define. |
| Tracking.InheritedNameReportedMet | src/simple/annotable.js:70-72 | As written, an annotator named `constructor` counts as met on fresh text, which `hasAnyAnnotator` denies. |
| Tokens.NewToken | src/simple/token.js:2-11 | `new Token(w).word()` is `w`, and every other field is undefined. |
| Tokens.TokenFromJson | src/simple/token.js:24-35 | A `null` or `undefined` record throws. Otherwise the eight copied fields are read verbatim, and every other field, index and ner included, stays undefined. |
| Tokens.MissingFieldStaysUndefined | src/simple/token.js:24-35 | A field missing from the record is undefined, with no default applied. |
| Tokens.OtherFieldsIgnored | src/simple/token.js:24-35 | Adding or changing a record field outside the eight copied fields leaves the token unchanged. |
| Tokens.GovernorGloss | src/simple/governor.js:44-46 | The gloss is the empty string without a governor token, and the governor's word otherwise. |
| Tokens.DependentGloss | src/simple/governor.js:52-54 | The gloss is the dependent's word when it is truthy and the empty string otherwise. A missing dependent throws. |
| Tokens.GovernorToJson | src/simple/governor.js:64-72 | Without a governor token, the governor is `0` with gloss `ROOT`. Otherwise it is the governor's index and word. The dependent's index and word and the label are carried over. |
| Tokens.GovernorToJsonAsWrittenThrows | src/simple/governor.js:64-72 | As written, `toJSON()` throws a `TypeError` on every governor, because tokens have no `index()`. With the index as a parameter it succeeds whenever there is a dependent. |
| Tokens.GovernorFromJson | src/simple/governor.js:82-84 | Always throws "Not implemented". |
| Tokens.TokenAtPosition | src/simple/sentence.js:111 | A 1-based position inside the list names that token, and any other number names none. |
| Sentences.SentenceToString | src/simple/sentence.js:18-20 | The text when truthy. Otherwise the tokens' default object strings joined by spaces. |
| Sentences.SentenceToStringLength | src/simple/sentence.js:18-20 | Without text, the string has 16 characters per token, less one. |
| Sentences.Words | src/simple/sentence.js:22-27 | Fails with the unmet-dependency error exactly when tokenize is not marked. Otherwise it gives each token's word, in order. |
| Sentences.WordAt | src/simple/sentence.js:29-34 | Fails exactly when tokenize is not marked or the index is outside the tokens. Otherwise it gives that entry of `words()`. |
| Sentences.Lemmas | src/simple/sentence.js:46-51 | Guarded by the lemma mark. Because tokens have no `lemma()` method, it succeeds only on an empty token list. |
| Sentences.Governors | src/simple/sentence.js:63-68 | Fails exactly when depparse is not marked, and otherwise gives the stored governors. |
| Sentences.GovernorAt | src/simple/sentence.js:70-75 | Guarded by depparse. Gives the entry of `governors()` at an index inside the list, and nothing elsewhere. |
| Sentences.TokenAt | src/simple/sentence.js:101-104 | The hydrated token at a 0-based index, and nothing outside the list. |
| Sentences.TokensFromJson | src/simple/sentence.js:101-104 | One token per record, in order. A `null` record throws. |
| Sentences.GovernorFromEdge | src/simple/sentence.js:109-116 | The label is the edge's `dep`. The tokens are looked up by the edge's 1-based `governor` and `dependent`. |
| Sentences.GovernorsFromJson | src/simple/sentence.js:109-116 | One governor per edge, in order. A `null` edge throws. |
| Sentences.SentenceRecord | src/simple/sentence.js:100 | With `isSentence` the data itself is read. Otherwise the first element of `data.sentences` is read, and `null` data throws. |
| Sentences.HydrateTokens | src/simple/sentence.js:101-104 | A truthy `tokens` marks tokenize and replaces the tokens with one per record. A falsy one changes nothing. |
| Sentences.HydrateParse | src/simple/sentence.js:105-108 | A truthy `parse` marks parse and is stored. A falsy one changes nothing. |
| Sentences.HydrateDependencies | src/simple/sentence.js:109-116 | A truthy `basicDependencies` marks depparse and replaces the governors with one per edge. A falsy one changes nothing. |
| Sentences.FromJson | src/simple/sentence.js:99-118 | Hydration only ever adds marks, and keeps the text and language. |
| Sentences.FromJsonTokens | src/simple/sentence.js:99-118 | After hydration, the tokens and the tokenize mark are those read from the record when it has tokens, and are unchanged otherwise. |
| Sentences.FromJsonParse | src/simple/sentence.js:99-118 | After hydration, the parse and its mark come from the record when it has a parse, and are unchanged otherwise. |
| Sentences.FromJsonDependencies | src/simple/sentence.js:99-118 | After hydration, the governors and the depparse mark come from the record's edges, built over the new tokens, when it has edges, and are unchanged otherwise. |
| Sentences.GovernorOrientation | src/simple/sentence.js:111 | An edge's `governor` token is stored as the dependent and its `dependent` token as the governor, the reverse of what the governor tests expect. |
| Sentences.NewDocument | src/simple/document.js:6-10 | A new document has its text and no sentences. |
| Sentences.SentenceAt | src/simple/document.js:16-18 | `sentence(i)` is `sentences()[i]`, with no annotator guard. |
| Sentences.SentencesFromJson | src/simple/document.js:28-31 | One sentence per record, in order, each hydrated with `isSentence` set. |
| Sentences.DocumentFromJson | src/simple/document.js:28-31 | The sentences are replaced by one hydrated sentence per record, and the document's own marks are untouched. `null` data throws. |
| TreeScan.Trim | src/util/tree.js:230 | The result neither starts nor ends with white space, and only white space was removed around it. |
| TreeScan.TrimKeeps | src/util/tree.js:230 | Trimming leaves a string unchanged exactly when it is empty or has no white space at either end. |
| TreeScan.IndexOf | src/util/tree.js:231 | The first position of the character, or -1 exactly when it is absent. |
| TreeScan.Clean | src/util/tree.js:229-241 | Without a space in the trimmed text, the tag is that text and there is no word. Otherwise the tag has no space and tag, space and word rebuild the trimmed text. |
| TreeScan.FirstSpace | src/util/tree.js:231-236 | For a tag without spaces, the split happens right after the tag and returns the tag and the rest unchanged. |
| TreeScan.ScanConcat | src/util/tree.js:213-225 | Scanning two strings in a row is scanning their concatenation. |
| TreeScan.ScanBracketed | src/util/tree.js:213-225 | Scanning the bracketed form of a tree appends exactly that tree to the children of the node on top of the stack. |
| TreeScan.ScanChildren | src/util/tree.js:213-225 | Scanning the bracketed forms of several trees appends them, in order, as children of the top node. |
| TreeScan.BuildBracketed | src/util/tree.js:208-227 | The bracketed form of a printable tree builds back that tree. |
| TreeScan.BuildKeepsFirstTree | src/util/tree.js:226 | Of two top-level groups, only the first is returned. |
| TreeScan.BuildUnclosed | src/util/tree.js:208-227 | An extra unclosed `(` before a tree leaves the result unchanged. |
| TreeScan.BuildUnbalanced | src/util/tree.js:218-221 | A `)` at the outermost level throws. |
| TreeScan.CleanLabel | src/util/tree.js:229-241 | The split of a printable node's label returns its tag and word. |
| Trees.FromString | src/util/tree.js:204-206 | Fails exactly when the scan fails or finds no group. Otherwise it gives the scanned tree, with parents linked only on the root's children when `doubleLink` is set. |
| Trees.FromStringOld | src/simple/util/tree.js:163-211 | The older builder has the same failure cases and tree shape, but links the parent of every non-root node when `doubleLink` is set. |
| Trees.FromStringBracketed | src/util/tree.js:204-256 | The bracketed form of a printable tree builds that tree in both copies of the builder, and the two agree apart from parent links. |
| Trees.TransformLinks | src/util/tree.js:243-256 | The recursive call drops `doubleLink`, so only the root's direct children get a parent. Without links the tree is the plain one. |
| Trees.TransformOldLinks | src/simple/util/tree.js:195-208 | In the older copy, `doubleLink` is captured by the closure, so every node but the root gets its parent. |
| Trees.PlainUnlinked | src/util/tree.js:255 | Without `doubleLink`, no node has a parent. |
| Trees.UnbuildPlain | src/util/tree.js:243-256 | Converting scanned nodes to tree nodes loses nothing: the conversion can be undone. |
| Trees.TransformFresh | src/util/tree.js:243-256 | A freshly built tree has no token and no language on any node. |
| Trees.VisitDeepFirstDoubles | src/util/tree.js:132-139 | `VisitDeepFirst` visits the post-order sequence with every node visited twice in a row, except the root, which is visited once. |
| Trees.VisitDeepFirstLength | src/util/tree.js:132-139 | A tree of n nodes gets 2n - 1 visits. |
| Trees.VisitDeepFirstOldDiverges | src/simple/util/tree.js:97-104 | The older traversal passes the child as the visitor and restarts at the root, so on any tree with children it never finishes. |
| Trees.VisitDeepFirstOldOnLeaf | src/simple/util/tree.js:97-104 | On a childless root, the older traversal visits the root once, like the current one. |
| Trees.VisitRightIsMirrored | src/util/tree.js:145-152 | `VisitDeepFirstRight` visits what the left-to-right traversal visits on the mirrored tree, and leaves every children array reversed. |
| Trees.VisitRightTwiceRestores | src/util/tree.js:145-152 | Two right-to-left traversals restore the original tree. |
| Trees.VisitLeavesIsFrontier | src/util/tree.js:158-170 | `VisitLeaves` visits exactly the childless nodes in post-order, left to right, each once. |
| Trees.VisitLeavesNonEmpty | src/util/tree.js:158-170 | Every tree has at least one leaf visit. |
| Trees.SetToken | src/util/tree.js:29-35 | A truthy token is stored. Without one, the node is unchanged. Nothing but the token changes. |
| Trees.BindTokensLeaves | src/util/tree.js:186-188 | The counter advances by one per leaf, and the i-th leaf, in leaf order, gets sentence token i when that token exists. |
| Trees.BindTokensKeeps | src/util/tree.js:186-188 | Binding tokens changes nothing but tokens: shape, tags, words, links and languages stay. |
| Trees.SetLanguageAllSpec | src/util/tree.js:190-193 | Every node gets the language, and nothing else changes. |
| Trees.LanguageCommutes | src/util/tree.js:186-193 | Binding tokens and setting the language can be done in either order. |
| Trees.FromSentenceSpec | src/util/tree.js:178-196 | For the corrected `FromSentence`: a falsy parse throws the parser-required error. Otherwise leaf i carries sentence token i when it exists, and every node has the sentence's language when that is truthy. |
| Trees.FromSentenceOldSpec | src/simple/util/tree.js:143-155 | The corrected older `FromSentenceOld` also throws on a falsy parse and binds leaf i to token i, but sets no language. |
| Trees.FromSentenceAsWrittenThrows | src/util/tree.js:178-196 | As written, both builders always throw: the parser-required error without a parse, and a `TypeError` at the first leaf otherwise, since `sentence.token` does not exist. |
| Coref.FieldNameInjective | src/simple/coref-mention.js:31-114 | The eleven accessors read eleven distinct fields. |
| Coref.Field | src/simple/coref-mention.js:31-114 | Each accessor returns its own field of the stored record, and throws when there is no record. |
| Coref.MentionFromJson | src/simple/coref-mention.js:145-162 | A mention read from a record keeps the record and has neither sentence nor token. |
| Coref.MentionRoundTrip | src/simple/coref-mention.js:145-152 | Writing out a mention read from a plain object gives back that object. |
| Coref.MentionSentence | src/simple/coref-mention.js:120-126 | A given sentence is stored and returned. Without one, the current sentence is returned and the mention is unchanged. |
| Coref.MentionToken | src/simple/coref-mention.js:132-138 | A given token is stored and returned. Without one, the current token is returned and the mention is unchanged. |
| Coref.MentionSetGet | src/simple/coref-mention.js:120-138 | A stored sentence or token reads back. |
| Coref.NewChain | src/simple/coref-chain.js:12-22 | A chain holds the given mentions and no document. |
| Coref.MentionAt | src/simple/coref-chain.js:29-31 | `mention(i)` is `mentions()[i]` inside the list, and nothing outside it. |
| Coref.IsRepresentative | src/simple/coref-mention.js:80-82 | The truthiness of the record's `isRepresentativeMention`. Throws when there is no record. |
| Coref.Representative | src/simple/coref-chain.js:37-39 | The first flagged mention, with every earlier one unflagged. Nothing exactly when none is flagged. Throws at the first mention without a record. |
| Coref.NonRepresentatives | src/simple/coref-chain.js:45-47 | The result is the chain filtered to its unflagged mentions: the same mentions, in chain order and with their multiplicity. Throws exactly when some mention has no record. |
| Coref.NonRepresentativeMembers | src/simple/coref-chain.js:45-47 | A mention is among the non-representatives exactly when it is in the chain and unflagged. |
| Coref.OneRepresentative | src/simple/coref-chain.js:37-47 | With exactly one flagged mention, the non-representatives are all the other mentions in order, one fewer than the chain holds. |
| Coref.RepresentativePartition | src/simple/coref-chain.js:37-47 | There is no representative exactly when every mention is non-representative, and a representative is never among the non-representatives. |
| Coref.ChainDocument | src/simple/coref-chain.js:54-60 | A given document is stored and returned. Without one, the current document is returned and the chain is unchanged. |
| Coref.BindMention | src/simple/coref-chain.js:67-75 | The corrected binding of one mention keeps its record and gives it a sentence. |
| Coref.BindMentions | src/simple/coref-chain.js:67-75 | Binding the list fails exactly when one mention fails, and otherwise binds each mention in place. |
| Coref.FromDocument | src/simple/coref-chain.js:67-75 | A successful binding keeps the chain's document and its number of mentions. |
| Coref.FromDocumentResolves | src/simple/coref-chain.js:67-75 | For the corrected `FromDocument`: with a 1-based `sentNum` inside the document, mention i is bound to that sentence, and to the token its 1-based `startIndex` names when that is inside the sentence. |
| Coref.FromDocumentMissingSentence | src/simple/coref-chain.js:67-75 | A `sentNum` outside the document makes the call throw. |
| Coref.FromDocumentAsWrittenThrows | src/simple/coref-chain.js:67-75 | As written, `fromDocument` throws a `TypeError` on every chain with a mention, since `sentence.token` does not exist. An empty chain is returned unchanged. |
| Coref.ChainWithJson | src/simple/coref-chain.js:83-86 | An array gives one mention per record, in order, and anything else throws. The document is kept. |
| Coref.ChainRoundTrip | src/simple/coref-chain.js:83-101 | A chain read from an array of plain objects writes each mention back as its record. |
| Expressions.MatchLabel | src/simple/expression.js:18-20 | The label is the record field `_` + name, and reading it throws without a record. |
| Expressions.MatchLabelReadsEntry | src/simple/expression.js:18-20 | The label reads the entry stored under the underscored key. |
| Expressions.MatchRoundTrip | src/simple/expression.js:27-34 | The JSON copy of a match read from a plain object is that object. |
| Expressions.NewExpression | src/simple/expression.js:70-74 | A new expression keeps its text and pattern, and has no marks and no sentences. |
| Expressions.ExpressionToString | src/simple/expression.js:80-82 | The text when it is truthy. Otherwise a string, empty when there are no sentences. |
| Expressions.ToStringShowsCountsOnly | src/simple/expression.js:80-82 | Without text, two expressions with the same number of matches per sentence print alike, whatever the matches hold. |
| Expressions.ToStringFromCounts | src/simple/expression.js:80-82 | Without text, the string is, per sentence, one `[object Object]` per match joined by commas, with the sentences joined by `. `. |
| Expressions.SentenceAt | src/simple/expression.js:105-107 | `sentence(i)` is `sentences()[i]` inside the list, and nothing outside it. |
| Expressions.MatchesOf | src/simple/expression.js:116-119 | Match i is read from the i-th own key other than `length`, in `Object.keys` order, and there is one match per such key. Throws on `null`. |
| Expressions.ExpressionFromJson | src/simple/expression.js:114-122 | A falsy `sentences` leaves the expression as it was. A truthy non-array throws. An array gives one sentence per element, and throws exactly when an element is `null`. |
| Expressions.ExpressionToJson | src/simple/expression.js:124-129 | The JSON form holds the text and one array of match copies per sentence. |
| Expressions.SentenceRoundTrip | src/simple/expression.js:116-129 | One sentence's JSON form reads back as the same matches. |
| Expressions.ExpressionRoundTrip | src/simple/expression.js:114-129 | Reading an expression's JSON into any expression gives it the same sentences and keeps its own text and pattern. |
| ExpressionSentences.MatchRoundTrip | src/simple/expression-sentence-match.js:60-67 | The JSON copy of a match read from a plain object is that object. |
| ExpressionSentences.DollarLabelsSpec | src/simple/expression-sentence-match.js:49-53 | `l` is a label exactly when `$` + `l` is a key, so keys such as `text`, `begin` and `end` are never labels. Label i comes from the i-th `$` key, in key order. |
| ExpressionSentences.LabelsSpec | src/simple/expression-sentence-match.js:49-53 | The labels of a record are the names whose `$` form is among its keys. Label i comes from the i-th `$` key in `Object.keys` order. |
| ExpressionSentences.GroupsInKeyOrder | src/simple/expression-sentence-match.js:23-39 | Group 0 is the whole record. Group k + 1 is the value under the k-th `$` key in `Object.keys` order, so there is one group more than there are `$` keys. |
| ExpressionSentences.GroupsSpec | src/simple/expression-sentence-match.js:23-39 | Every `$` key's value is one of the groups after the first. |
| ExpressionSentences.FindIndex | src/simple/expression-sentence.js:43-46 | The first token whose index is the group's `begin` + 1 and whose string is the group's text. None exactly when no token fits. |
| ExpressionSentences.FindTokenFirst | src/simple/expression-sentence.js:43-46 | When token j is the first to fit, it is the one found. |
| ExpressionSentences.MergeGroups | src/simple/expression-sentence.js:50-53 | Each group gets the token found for it, or keeps its previous one. Setting a field on a non-object group throws. |
| ExpressionSentences.MergeMatch | src/simple/expression-sentence.js:48-53 | Every group of the match, the main one included, is visited. The record is kept, and found tokens override earlier ones. |
| ExpressionSentences.MergeAttachesFirstFit | src/simple/expression-sentence.js:42-53 | The main group gets the first token that fits its `begin` and `text`. |
| ExpressionSentences.MergeIdempotent | src/simple/expression-sentence.js:42-55 | Merging the same sentence twice is merging it once. |
| ExpressionSentences.MatchAt | src/simple/expression-sentence.js:28-30 | `match(i)` is `matches()[i]` inside the list, and nothing outside it. |
| ExpressionSentences.ExpressionSentenceFromJson | src/simple/expression-sentence.js:62-67 | Match i is read from the i-th own key other than `length`, in `Object.keys` order, and there is one match per such key. Throws on `null`. |
| ExpressionSentences.ExpressionSentenceRoundTrip | src/simple/expression-sentence.js:62-71 | The JSON array of matches reads back as the same matches. |
| ExpressionSentences.MergeTokensFromSentence | src/simple/expression-sentence.js:42-55 | The corrected merge merges every match in place and keeps its record. It fails exactly when one match's merge fails. |
| ExpressionSentences.MergeTokensIdempotent | src/simple/expression-sentence.js:42-55 | Merging a sentence's tokens twice is merging them once. |
| ExpressionSentences.MergeTokensAsWrittenThrows | src/simple/expression-sentence.js:42-55 | As written, the merge throws a `TypeError` on every expression sentence with a match, since `sentence.tokens()` does not exist. With no match it returns the sentence unchanged. |
| PropertySets.NewProperties | src/properties.js:9-11 | The set is a copy of the argument's own entries, empty for `null` and `undefined`, and never holds a key twice. |
| PropertySets.NewFromObject | src/properties.js:9-11 | A plain object's entries are kept as they are. |
| PropertySets.SetProperty | src/properties.js:18-20 | Afterwards the name reads the value and no other name changes. An existing name keeps its place. A new name that is not an array index goes last. Removing the set name from both key lists leaves the same order. |
| PropertySets.SetKeepsValid | src/properties.js:18-20 | Setting keeps the keys unique and in `Object.keys` order, with array-index keys first in ascending order. |
| PropertySets.SetIndexNameGoesFirst | src/properties.js:18-20 | Setting the array-index name `7` on `{ b: 1 }` puts it before `b`, so the file reads `7 = 2` then `b = 1`. |
| PropertySets.GetProperty | src/properties.js:28-33 | The default exactly when the name is unset or set to `undefined`, and the stored value otherwise. |
| PropertySets.SetThenGet | src/properties.js:18-33 | A value that was set reads back, unless it is `undefined`, which reads as the default. Other names read as before. |
| PropertySets.GetPropertyAsWritten | src/properties.js:28-33 | As written, an unset name that `Object.prototype` defines returns the inherited member rather than the default. |
| PropertySets.AsWrittenAgreesOffInherited | src/properties.js:28-33 | On every name `Object.prototype` does not define, the read as written is the corrected one. |
| PropertySets.InheritedNameShadowsDefault | src/properties.js:28-33 | On an empty set, `toString` with default `''` answers with the inherited function, where the corrected read gives `''`. |
| PropertySets.GetProperties | src/properties.js:39-49 | `getProperties()` and `toJson()` return a copy equal to the stored entries. |
| PropertySets.FileContentLines | src/properties.js:55-59 | Split on newlines, the file has one `name = value` line per property, in `Object.keys` order, when no name or value holds a newline. |
| PropertySets.FileContentExample | src/properties.js:55-59 | `{ test: 123, bar: 'foo' }` is written as `test = 123` and `bar = foo` on two lines. |
| Dedup.UniqSpec | src/simple/annotator.js:77-84 | lodash `uniq` (`Uniq`) keeps exactly the elements of its input, none twice, so the result is no longer than the input. |
| Dedup.UniqKeepsFirstOccurrenceOrder | src/simple/annotator.js:77-84 | The elements that `Uniq` keeps are ordered by where each first occurs in the input. |
| Dedup.UniqAbsorb | src/simple/annotator.js:77-84 | Removing duplicates from a prefix first changes nothing. |
| Dedup.UniqByScan | src/simple/annotator.js:77-84 | A single pass that remembers the names already seen computes exactly `Uniq`. |

## Left out

- Connecting to the server, the command-line runner, the async pipeline and the service's JSON lookup tables. These are network, process and file I/O over libraries outside this code. Their results enter the model only as the JSON values the hydration functions take.
- `Tree.dump`, `Node.posInfo`, `Node.info` and `Node.toJSON`. These are serialisation and service table lookups. `dump` also calls an `info()` that the current `Node` does not define.
- The older `visitDeepFirstRight`. It refers to an undefined `node` and throws before visiting anything.
- The stub methods of `Sentence` (`posTags`, `nerTags`, the natlog and openie accessors, `algorithms`), `Document.coref` and the async `lemma(index)`. They have no behaviour to state.
- The Expression annotator subclasses (TokensRegex, Semgrex, Tregex). They are passed around as classes, so their name is the class's source text.
- `Symbol.iterator` on `Sentence`. It yields the token list, which `Sentences.TokenAt` already gives element by element.
- Object identity and in-place mutation. Setters return the updated value: `option`, `sentence`, `token`, `document`, the tree nodes' `token` and `parent`, and `mergeTokensFromSentence`, which returns the same instance. When a loop throws part-way, the entries it already changed are not kept.
- Numbers are integers. A numeric string used as an index, and a floating-point `sentNum` or `startIndex`, are not modelled.
- Property names are plain strings. Writing the key `__proto__` on a plain object, which replaces the prototype instead of adding a key, is not modelled.
- Parent links are a flag per node ("its `parent()` is the enclosing node"), not a back pointer.
- The token attached by a merge is stored beside the match record. The JSON copy of a match never shows it.
- `Expression.fromJson` does not read the text or pattern from the record, and the model follows that.
- A parse that is truthy but not a string makes `fromString` throw. The model gives the `TypeError` without the character-by-character behaviour of non-string values.
- Tokens have no `index()` or `toString()`. The index and string forms used by the governor's JSON and by the merge are parameters.
- `Trees.VisitDeepFirstOld`: the endless recursion is modelled with a fuel bound. Running out of fuel stands for the stack overflow.
- Tokens.TokenAtPosition: a non-integer or string position is read as no token.
- Annotators.OptionValue: reads only the options that are set, and gives `undefined` for every other name. The read as written, which also finds inherited members, is `OptionValueAsWritten`.
- Trees.FromSentenceSpec: states the corrected builder, which binds leaves to the hydrated token list. As written the builder throws; see `Trees.FromSentenceAsWrittenThrows`.
- Trees.FromSentenceOldSpec: states the corrected older builder. As written it throws; see `Trees.FromSentenceAsWrittenThrows`.
- Coref.FromDocumentResolves: states the corrected binding, which reads the hydrated token list. As written the binding throws; see `Coref.FromDocumentAsWrittenThrows`.
- Coref.BindMention: binds through the hydrated token list. As written `sentence.token` throws; see `Coref.BindMentionAsWritten`.
- ExpressionSentences.MergeTokensFromSentence: reads the hydrated token list and takes the token index as a parameter. As written it throws; see `ExpressionSentences.MergeTokensAsWrittenThrows`.
- Tokens.GovernorToJson: takes the token index as a parameter. As written `toJSON()` throws; see `Tokens.GovernorToJsonAsWrittenThrows`.

## Findings

| source | as written | input that shows it | evidently intended | confidence | as-written member | corrected member |
|---|---|---|---|---|---|---|
| src/simple/annotable.js:70-72 | `hasAnnotator` tests `!!this._annotators[name]`, which also finds members inherited from `Object.prototype` | an annotator named `constructor` on fresh text: `hasAnnotator` is true while `hasAnyAnnotator([it])` is false | only annotators that were added are met, as `hasAnyAnnotator` checks with `Object.keys` | high, not executed | Tracking.InheritedNameReportedMet | Tracking.HasAnnotatorIsSingleHasAny |
| src/properties.js:28-33 | `getProperty` tests `typeof this._props[name]`, which sees inherited members | `new Properties().getProperty('toString', '')` returns `Object.prototype.toString` | the default for every name that was not set | high, not executed | PropertySets.InheritedNameShadowsDefault | PropertySets.SetThenGet |
| src/simple/util/tree.js:97-104 | the recursive call `this.visitDeepFirst(childNode)` passes the child as the visitor and restarts at the root | any tree whose root has a child: the recursion never ends | recurse into the child with the same visitor, as `src/util/tree.js:132-139` does | high, not executed | Trees.VisitDeepFirstOldDiverges | Trees.VisitDeepFirstDoubles |
| src/simple/annotator.js:54-57 | `option(key)` returns `this._options[key]`, which also finds members inherited from `Object.prototype` | `new Annotator('x').option('toString')` returns `Object.prototype.toString` | `undefined` for every option that was not set | medium, not executed | Annotators.InheritedOptionName | Annotators.SetOption |
| src/util/tree.js:188 | `sentence.token(visitedLeaves++)` calls a method `Sentence` does not define | a sentence with any well-formed parse string: the first leaf visit throws a `TypeError` | leaf i gets the sentence's i-th hydrated token | high, not executed | Trees.FromSentenceAsWrittenThrows | Trees.FromSentenceSpec |
| src/simple/util/tree.js:152 | the same call to the missing `sentence.token` | a sentence with any well-formed parse string: the first leaf visit throws a `TypeError` | leaf i gets the sentence's i-th hydrated token | high, not executed | Trees.FromSentenceAsWrittenThrows | Trees.FromSentenceOldSpec |
| src/simple/coref-chain.js:70 | `sentence.token(mention.startIndex() - 1)` calls a method `Sentence` does not define | any chain with one mention: `fromDocument` throws a `TypeError` | each mention is bound to the token its `startIndex` names | high, not executed | Coref.FromDocumentAsWrittenThrows | Coref.FromDocumentResolves |
| src/simple/expression-sentence.js:43-45 | `findToken` calls `sentence.tokens()` and `token.index()`, neither of which exists | any expression sentence with one match: the lookup for its first group throws a `TypeError` | each group gets the first token whose index is `begin + 1` and whose text is the group's | high, not executed | ExpressionSentences.MergeTokensAsWrittenThrows | ExpressionSentences.MergeAttachesFirstFit |
| src/simple/governor.js:67-69 | `toJSON()` calls `index()` on the tokens, which `Token` does not define | any governor: `toJSON()` throws a `TypeError` | the governor and dependent fields hold the tokens' 1-based indices | high, not executed | Tokens.GovernorToJsonAsWrittenThrows | Tokens.GovernorToJson |
