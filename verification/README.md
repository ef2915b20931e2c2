# PR review server: the review pipeline in Dafny

This project models the decision logic of a pull-request review server. When a
pull request is opened, the server does the following:

- It loads a *feature registry* from the head branch. The registry maps each feature name to the path prefixes it owns and its core files.
- It parses the pull request body for its summary, its main and related features, and its description bullets.
- It reviews each declared feature with an LLM. The prompt is built from the feature's definition, its stored *feature memory*, the diffs of the changed files the feature owns, and the full text of its core files.
- It folds the LLM's memory suggestion into the memory store.
- It merges the per-feature reviews into one report.

The model is written as immutable datatypes and pure functions. The registry
and the memory store are small state records threaded through the operations.
Java exceptions are `Err` values of a `Result`. The collaborators are parameters
of type function:

- the registry loader;
- GitHub's changed-file listing and code collection;
- the LLM.

The service records the calls it makes to them, so its control flow can be stated.

| file | module | models |
|---|---|---|
| `base.dfy` | `Base` | `Option`, `Result`, the exception kinds |
| `seqs.dfy` | `Seqs` | filter, map, flatten, de-duplication, subsequences |
| `java_string.dfy` | `JavaString` | `String.trim`, `startsWith`, `split` (trailing empty strings dropped) |
| `dto.dfy` | `Dto` | the records (definitions, memories, suggestions, responses, reviews, parsed context, collected code) |
| `memory_store.dfy` | `MemoryStore` | `FeatureMemoryRepository` |
| `registry.dfy` | `Registry` | `FeatureRegistry` and its uninitialised state |
| `resolver.dfy` | `Resolver` | `FeatureResolver` |
| `parser.dfy` | `Parser` | `PrParser`, with its four regular expressions written out |
| `prompts.dfy` | `Prompts` | `PromptBuilder` |
| `aggregator.dfy` | `Aggregator` | `ReviewAggregator` |
| `review_service.dfy` | `ReviewService` | `PrReviewService` |

In the parser, each `Pattern.compile(..., DOTALL)` followed by `find()` becomes
explicit functions:

- a leftmost search for the marker;
- the greedy `\s*`, which backtracks to the last newline that still leaves the lazy group a character;
- the lazy `(.+?)`, which ends at the first position where the lookahead holds. `$` there means the end of the input or a final line terminator, because MULTILINE is off.

The split/trim/filter stream pipelines follow, written exactly.

`mergeReviews` writes `---` after every entry, including the last
(`Aggregator.ReviewBlock`).

## Model

| member | source | states |
|---|---|---|
| MemoryStore.Find | src/main/java/greensnaback0229/pr_review_server/feature/FeatureMemoryRepository.java:35-37 | the lookup is present exactly when the key was saved, and then it is the saved memory |
| MemoryStore.Exists | src/main/java/greensnaback0229/pr_review_server/feature/FeatureMemoryRepository.java:45-47 | `exists` holds if and only if `findByFeature` is present |
| MemoryStore.Save | src/main/java/greensnaback0229/pr_review_server/feature/FeatureMemoryRepository.java:25-27 | after a save the memory is found under its own feature; every other key answers as before; the key set grows by exactly that feature; entries stay filed under their own names |
| MemoryStore.Delete | src/main/java/greensnaback0229/pr_review_server/feature/FeatureMemoryRepository.java:54-56 | the deleted key is no longer found; every other key answers as before; exactly that key leaves the key set |
| MemoryStore.Clear | src/main/java/greensnaback0229/pr_review_server/feature/FeatureMemoryRepository.java:61-63 | after `clear` no key exists |
| MemoryStore.SaveThenFind | src/main/java/greensnaback0229/pr_review_server/feature/FeatureMemoryRepository.java:25-37 | after saving `m`, `exists(m.feature)` holds and `findByFeature(m.feature)` returns `m` |
| MemoryStore.LastWriteWins | src/main/java/greensnaback0229/pr_review_server/feature/FeatureMemoryRepository.java:26 | two saves under one key leave the store as the second save alone would |
| MemoryStore.NeverSavedNotFound | src/main/java/greensnaback0229/pr_review_server/feature/FeatureMemoryRepository.java:35-37 | in a fresh store no key is found and none exists |
| Registry.InitializeOnBranch | src/main/java/greensnaback0229/pr_review_server/feature/FeatureRegistry.java:42-44 | a successful load replaces the whole catalog with the loader's map; a failing load reports the loader's exception and leaves the registry as it was, whether initialised or not |
| Registry.Initialize | src/main/java/greensnaback0229/pr_review_server/feature/FeatureRegistry.java:30-32 | the two-argument overload is the three-argument one with no branch |
| Registry.GetFeature | src/main/java/greensnaback0229/pr_review_server/feature/FeatureRegistry.java:52-57 | fails with the illegal-state message exactly when uninitialised; otherwise present if and only if the name is a key, and then it is the definition under that key |
| Registry.HasFeature | src/main/java/greensnaback0229/pr_review_server/feature/FeatureRegistry.java:77-82 | fails exactly when uninitialised; otherwise true if and only if `getFeature` is present |
| Registry.GetAllFeatures | src/main/java/greensnaback0229/pr_review_server/feature/FeatureRegistry.java:64-69 | fails exactly when uninitialised; otherwise one element per key, each a catalog value, and every catalog value included |
| Registry.LookupsAfterLoad | src/main/java/greensnaback0229/pr_review_server/feature/FeatureRegistry.java:42-82 | after a successful load, `getFeature` and `hasFeature` answer from the loaded map |
| Registry.LookupsAfterFailedLoad | src/main/java/greensnaback0229/pr_review_server/feature/FeatureRegistry.java:42-57 | after a failed load, every lookup answers as before, and an uninitialised registry still refuses lookups |
| Resolver.Resolve | src/main/java/greensnaback0229/pr_review_server/feature/FeatureResolver.java:32-48 | fails exactly when the registry is uninitialised; empty exactly when the name is not in the catalog; otherwise the catalog definition paired with the store's memory for the name, or no memory |
| Resolver.FirstMatchingPath | src/main/java/greensnaback0229/pr_review_server/feature/FeatureResolver.java:68-73 | the index found is the first path prefix the file starts with; there is none exactly when the file starts with no path |
| Resolver.FilterByPaths | src/main/java/greensnaback0229/pr_review_server/feature/FeatureResolver.java:64-76 | keeps exactly the changed files that start with one of the paths, each occurrence at most once |
| Resolver.FilterByPathsIsFilter | src/main/java/greensnaback0229/pr_review_server/feature/FeatureResolver.java:64-76 | the nested loop with `break` equals the order-preserving filter by "starts with some path" |
| Resolver.FilterByPathsIdempotent | src/main/java/greensnaback0229/pr_review_server/feature/FeatureResolver.java:67-74 | filtering twice equals filtering once; the result is a subsequence of the input |
| Resolver.FilterRelatedFiles | src/main/java/greensnaback0229/pr_review_server/feature/FeatureResolver.java:58-77 | fails exactly when the registry is uninitialised; empty for an unknown feature; otherwise the path filter over the feature's paths (a definition without `paths` is left out) |
| Resolver.GetCoreFiles | src/main/java/greensnaback0229/pr_review_server/feature/FeatureResolver.java:85-89 | fails exactly when uninitialised; the definition's core files, or empty for an unknown feature |
| Resolver.FilteredFilesAreOwned | src/main/java/greensnaback0229/pr_review_server/feature/FeatureResolver.java:64-76 | a file is in the filtered list if and only if it is a changed file, the feature is in the catalog, and the file starts with one of the feature's paths |
| JavaString.Trim | src/main/java/greensnaback0229/pr_review_server/parser/PrParser.java:52-54 | the result is a trimmed infix of the input with no character the input lacks |
| JavaString.TrimOfPadded | src/main/java/greensnaback0229/pr_review_server/parser/PrParser.java:89-91 | trimming a trimmed text padded by blanks gives back that text |
| JavaString.Split | src/main/java/greensnaback0229/pr_review_server/parser/PrParser.java:53 | `split` is the delimiter-free token list with its trailing empty tokens removed: when the delimiter occurs, a non-empty result ends in a non-empty token. A text without the delimiter is one token |
| JavaString.JoinTokens | src/main/java/greensnaback0229/pr_review_server/parser/PrParser.java:53 | the tokens joined by the delimiter give back the text |
| Parser.GroupStart | src/main/java/greensnaback0229/pr_review_server/parser/PrParser.java:36 | the group can start after the marker exactly when some separator ending there matches `\s*\n` (or `\s*-\s*`) with a character left for the group; it then starts at the last such end, as the greedy `\s*` backtracks |
| Parser.MatchAtIsRegexMatch | src/main/java/greensnaback0229/pr_review_server/parser/PrParser.java:36 | a match starts at a position exactly when the marker is there and some separator follows it; the group starts at the last separator end |
| Parser.MatchAt | src/main/java/greensnaback0229/pr_review_server/parser/PrParser.java:36 | a match at a position starts with the marker; its group is non-empty and ends at the first position after its start where the lookahead holds |
| Parser.FindFrom | src/main/java/greensnaback0229/pr_review_server/parser/PrParser.java:36-38 | `find()` returns the leftmost position with a match, and there is none exactly when no position matches |
| Parser.Capture | src/main/java/greensnaback0229/pr_review_server/parser/PrParser.java:36-39 | the group is absent exactly when no position matches, and otherwise it is the non-empty group of the leftmost match |
| Parser.ExtractSummary | src/main/java/greensnaback0229/pr_review_server/parser/PrParser.java:35-42 | on a match, the trimmed capture of the leftmost match; `""` when the pattern does not match |
| Parser.ExtractMainFeatures | src/main/java/greensnaback0229/pr_review_server/parser/PrParser.java:48-59 | on a match, the trimmed, non-empty comma tokens of the trimmed capture, in token order; empty when `main - ` does not match; every name is non-empty, trimmed and comma-free |
| Parser.ExtractRelatedFeatures | src/main/java/greensnaback0229/pr_review_server/parser/PrParser.java:65-76 | on a match, the trimmed, non-empty comma tokens of the trimmed capture, in token order; empty when `related - ` does not match; every name is non-empty, trimmed and comma-free |
| Parser.ExtractDescription | src/main/java/greensnaback0229/pr_review_server/parser/PrParser.java:83-96 | on a match, the bullet items of the trimmed capture's lines, in line order; empty when the section does not match; every item is non-empty, trimmed and a single line |
| Parser.Parse | src/main/java/greensnaback0229/pr_review_server/parser/PrParser.java:20-29 | title and changed files are copied unchanged; every extracted field is well-formed as above |
| Parser.SplitNamesAppend | src/main/java/greensnaback0229/pr_review_server/parser/PrParser.java:53-56 | the names of `a,b` are the names of `a` followed by those of `b`, so names keep token order |
| Parser.SplitNamesSingle | src/main/java/greensnaback0229/pr_review_server/parser/PrParser.java:53-56 | a comma-free piece contributes its trimmed text, or nothing when that is empty |
| Parser.SplitBulletsAppend | src/main/java/greensnaback0229/pr_review_server/parser/PrParser.java:88-93 | the items of two newline-separated parts are the items of the first followed by those of the second |
| Parser.SplitBulletsSingle | src/main/java/greensnaback0229/pr_review_server/parser/PrParser.java:89-92 | a line contributes exactly the re-trimmed rest of its trimmed form when that starts with `-` and the rest is non-empty, and nothing otherwise |
| Parser.SplitLikeTokens | src/main/java/greensnaback0229/pr_review_server/parser/PrParser.java:88-92 | the empty tokens that `split` drops would be filtered out anyway |
| Parser.SummaryAfterBlankLines | src/main/java/greensnaback0229/pr_review_server/parser/PrParser.java:36-41 | after blank lines under `## summary`, the greedy `\s*` gives back only the last newline, so the heading that follows becomes the summary |
| Parser.LeadingSummary | src/main/java/greensnaback0229/pr_review_server/parser/PrParser.java:36-41 | a body that opens with `## summary`, one trimmed line and the next `##` heading has that line as its summary, whatever follows |
| Parser.ExampleSummary | src/test/java/greensnaback0229/pr_review_server/parser/PrParserTest.java:24-46 | the body of the documented layout has the summary `상품 결제 할인` |
| Parser.EmptyBodyGivesEmptyFields | src/main/java/greensnaback0229/pr_review_server/parser/PrParser.java:20-29 | an empty body yields an empty summary and empty lists |
| Parser.MissingSectionsAreEmpty | src/main/java/greensnaback0229/pr_review_server/parser/PrParser.java:35-96 | a body lacking a marker yields the empty value for that field, never an error |
| Prompts.BuildSystemPrompt | src/main/java/greensnaback0229/pr_review_server/prompt/PromptBuilder.java:22-52 | a constant that opens with the reviewer's role line and closes the last JSON example |
| Prompts.BuildInitialPrompt | src/main/java/greensnaback0229/pr_review_server/prompt/PromptBuilder.java:62-112 | the prompt opens with the feature-information section and ends with the closing request |
| Prompts.MemoryShownIffPresent | src/main/java/greensnaback0229/pr_review_server/prompt/PromptBuilder.java:75-90 | the memory heading follows the feature section if and only if there is memory; otherwise the changed-files heading does |
| Prompts.MemorySectionAt | src/main/java/greensnaback0229/pr_review_server/prompt/PromptBuilder.java:75-88 | the memory section, or nothing without memory, sits right after the feature section |
| Prompts.SummaryLineShown | src/main/java/greensnaback0229/pr_review_server/prompt/PromptBuilder.java:78 | with memory, the `- 요약: ` summary line follows the memory heading in the prompt |
| Prompts.KeyPointsShownIffAny | src/main/java/greensnaback0229/pr_review_server/prompt/PromptBuilder.java:78-86 | the key-point heading follows the summary line if and only if there are key points |
| Prompts.KeyPointListed | src/main/java/greensnaback0229/pr_review_server/prompt/PromptBuilder.java:81-84 | key point `i` appears as its own `  * ` line right after the lines of the earlier points |
| Prompts.KeyPointInPrompt | src/main/java/greensnaback0229/pr_review_server/prompt/PromptBuilder.java:80-85 | key point `i` appears in the prompt as its own `  * ` line, inside the memory section, after the earlier points |
| Prompts.ChangedHeadingShown | src/main/java/greensnaback0229/pr_review_server/prompt/PromptBuilder.java:90 | the changed-files heading is always emitted, right after the memory section |
| Prompts.ChangedFileShown | src/main/java/greensnaback0229/pr_review_server/prompt/PromptBuilder.java:90-96 | the changed-files heading sits right after the memory section, whether or not there is memory; changed entry `i` appears as a `diff` block right after that heading and the blocks of the earlier entries |
| Prompts.CoreShownIffAny | src/main/java/greensnaback0229/pr_review_server/prompt/PromptBuilder.java:99-109 | the core-files heading follows the changed files if and only if there are core entries; otherwise the closing request does |
| Prompts.CoreFileShown | src/main/java/greensnaback0229/pr_review_server/prompt/PromptBuilder.java:100-106 | core entry `i` appears as a `java` block right after the core heading and the blocks of the earlier entries |
| Prompts.BuildFollowUpPrompt | src/main/java/greensnaback0229/pr_review_server/prompt/PromptBuilder.java:120-134 | the follow-up prompt opens with its heading and ends with its closing sentence |
| Prompts.RequestedFileShown | src/main/java/greensnaback0229/pr_review_server/prompt/PromptBuilder.java:123-129 | requested entry `i` appears as a `java` block right after the heading and the blocks of the earlier entries |
| Aggregator.MergeReviews | src/main/java/greensnaback0229/pr_review_server/aggregator/ReviewAggregator.java:56-76 | no reviews gives the fixed sentence; one review gives its text verbatim; more give the combined heading followed by nothing but the review blocks, by length |
| Aggregator.MergedBlockAt | src/main/java/greensnaback0229/pr_review_server/aggregator/ReviewAggregator.java:66-75 | in a combined report, review `i`'s block appears right after the heading and the blocks of the earlier reviews, so blocks keep input order |
| Aggregator.MergeReviewsAppend | src/main/java/greensnaback0229/pr_review_server/aggregator/ReviewAggregator.java:69-73 | reviewing more features only appends their blocks to a combined report |
| Aggregator.MergeFiles | src/main/java/greensnaback0229/pr_review_server/aggregator/ReviewAggregator.java:106-116 | the existing list is a prefix of the result; the result holds exactly the files of both lists; it is no longer than both together; it has no duplicates when the existing list has none |
| Aggregator.MergeFilesSnoc | src/main/java/greensnaback0229/pr_review_server/aggregator/ReviewAggregator.java:111-115 | one more suggested file is appended exactly when it is not already in the merged list |
| Aggregator.MergeFilesIsUnion | src/main/java/greensnaback0229/pr_review_server/aggregator/ReviewAggregator.java:106-116 | the merge is the existing list followed by the distinct suggested files not in it, in first-occurrence order |
| Aggregator.MergeMemory | src/main/java/greensnaback0229/pr_review_server/aggregator/ReviewAggregator.java:91-125 | without existing memory the suggestion is taken over as it is. With existing memory, the summary is `old + " \| " + new` and the key points are concatenated. The related files are unset exactly when both lists are empty; otherwise they are the old list followed by the distinct new files not in it, in first-occurrence order, which stays duplicate-free |
| Aggregator.UpdateMemory | src/main/java/greensnaback0229/pr_review_server/aggregator/ReviewAggregator.java:85-132 | the merged memory is saved under the feature and returned; no other key changes |
| Aggregator.Aggregate | src/main/java/greensnaback0229/pr_review_server/aggregator/ReviewAggregator.java:33-48 | the review carries the feature, the response text and the time. Without a suggestion the store is untouched and no memory is reported. With one, the store and the reported memory are exactly those of `updateMemoryFromSuggestion` (the merge saved under the feature). No other key changes |
| Aggregator.TwoSuggestions | src/main/java/greensnaback0229/pr_review_server/aggregator/ReviewAggregator.java:95-103 | two suggestions for a new feature leave summary `s1 \| s2` and the key points of both, in order |
| Aggregator.RelatedFilesStayDistinct | src/main/java/greensnaback0229/pr_review_server/aggregator/ReviewAggregator.java:106-119 | a memory whose related files are distinct keeps them distinct through any later suggestion |
| ReviewService.ToEntries | src/main/java/greensnaback0229/pr_review_server/webhook/PrReviewService.java:139-150 | `toMap` succeeds exactly when the paths are distinct and every value is non-null, and then it yields each (path, value) pair in order |
| ReviewService.ReviewFeature | src/main/java/greensnaback0229/pr_review_server/webhook/PrReviewService.java:111-178 | A feature that does not resolve or owns no changed file is skipped with no call. Otherwise the first call is the collection of the owned files and the core files. A failed collection or `toMap` ends with no review and no LLM call. When all succeed, the LLM is sent the system prompt and the initial prompt built from the collected entries; a failed answer gives no review and an untouched store, and a successful one gives the aggregate of that answer. No other feature's memory changes |
| ReviewService.FeatureStepSound | src/main/java/greensnaback0229/pr_review_server/webhook/PrReviewService.java:117-172 | each feature step reviews only that feature, only if it is in the catalog, and asks the LLM at most once |
| ReviewService.RunFeatures | src/main/java/greensnaback0229/pr_review_server/webhook/PrReviewService.java:71-77 | no more reviews than features; an empty list does nothing; a single feature yields exactly its step's review, if any, its store and its calls |
| ReviewService.RunFeaturesAppend | src/main/java/greensnaback0229/pr_review_server/webhook/PrReviewService.java:71-86 | running the main loop and then the related loop equals one run over both lists |
| ReviewService.RunFeaturesSound | src/main/java/greensnaback0229/pr_review_server/webhook/PrReviewService.java:71-86 | reviews come in the order of the listed features, at most one per listing, each of a catalog feature, with at most one LLM call per feature |
| ReviewService.ReviewPullRequest | src/main/java/greensnaback0229/pr_review_server/webhook/PrReviewService.java:53-98 | The registry is loaded from the head branch first. A failed load returns the error text with no further call. A failed listing returns the error text before any feature is reviewed. A successful load installs the loaded catalog |
| ReviewService.SuccessfulRequest | src/main/java/greensnaback0229/pr_review_server/webhook/PrReviewService.java:59-92 | past the listing, the text returned is the merge of one run over the main features followed by the related ones |
| ReviewService.SuccessfulRequestReviews | src/main/java/greensnaback0229/pr_review_server/webhook/PrReviewService.java:71-89 | past the listing, the reviews follow the order of the declared features, belong to catalog features, and the request makes no more LLM calls than declared features |

## Left out

- `CodeCollector` is not part of this model. Changed-file listing and code collection are the collaborator functions `changedFilePaths` and `collectAll`, which return a value or an exception. The model does not state which files they keep or skip.
- `FeatureRegistryLoader` (GitHub fetch and YAML parsing) is the collaborator `Registry.Loader`, which returns a catalog or an exception. A missing `features` key is one such exception.
- `LlmClient` is the collaborator `startReview`. The HTTP exchange and JSON decoding are left out.
- The need-more-context loop in `reviewFeature` leaves on its first pass. The model therefore makes exactly one LLM call, and `BuildFollowUpPrompt` is never called by the service.
- The webhook controller, payload mapping and GitHub configuration are left out. They are HTTP and framework plumbing. The controller calls a five-argument `reviewPullRequest`, but the service declares six arguments; the model follows the service.
- Concurrency is left out: the `ConcurrentHashMap` and races between requests. The memory store and the registry are modelled sequentially.
- Clock readings are the input `now`. One reading stamps both the review and the memory of a feature, where the source reads the clock twice.
- Iteration order of the prompt maps is left out. The source builds a `HashMap` with `Collectors.toMap` and the prompt iterates it in hash order; the model passes the entries in collection order instead. The `...Shown` lemmas hold for whatever order the entries arrive in.
- Exception messages from `Collectors.toMap` are approximated. They never reach the output, because the per-feature catch discards them.
- Null memory fields are left out. A null summary would print as `null`. A null `keyPoints` list is treated as empty by the prompt (PromptBuilder.java:80), but the merge would throw on it (ReviewAggregator.java:101-102). The model takes both fields as always present.
- Resolver.FilterRelatedFiles: a feature definition always has `paths`, `coreFiles` and a description. The registry loader copies these YAML fields without null checks (FeatureRegistryLoader.java:99-101). An entry without `paths` would make `filterRelatedFiles` throw (FeatureResolver.java:68), and `reviewFeature` would skip that feature. The model returns the path filter instead.
- Resolver.GetCoreFiles: an entry without `coreFiles` is read as empty by `getCoreFiles`, but the service passes it as null to the collector (PrReviewService.java:134). The model has no missing `coreFiles` case.
- Prompts.BuildInitialPrompt: an entry without a description would print as `null` (PromptBuilder.java:71). The model has no missing description.
- `ReviewResponse` in the repository declares no memory-suggestion field, although the aggregator reads one. The model gives the response an optional suggestion.
- Log statements are left out. They have no effect on results.
- ReviewService.ReviewPullRequest: the pull request body is always a string. A null body, which the webhook controller can forward, would make the parser's matcher throw, and the request would return the error text; the model does not represent that case.
- Parser.Parse: only the summary of a concrete pull-request body is evaluated (`Parser.ExampleSummary`); the feature lists and description of that body are not. The contracts state the shape of every field, the split lemmas state the token-by-token content, and `Parser.MatchAtIsRegexMatch` and `Parser.Capture` state which text is captured.
- Prompts.BuildSystemPrompt: the contract states the opening and closing lines of the constant, not its full text. The full text is the constant `SystemPrompt`.
- Prompts.BuildInitialPrompt, Prompts.BuildFollowUpPrompt: the contracts state how each prompt opens and ends. Where each section and block sits in the prompt is stated by lemmas: `Prompts.MemorySectionAt` and `Prompts.SummaryLineShown` place the memory section and its summary line, and `Prompts.KeyPointInPrompt` places its key points. The `...Shown...` lemmas place the headings and file blocks. `Prompts.KeyPointsShownIffAny` and `Prompts.KeyPointListed` work inside the memory section.
