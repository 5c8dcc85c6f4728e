# document-intelligence: the retrieval pipeline, modelled in Dafny

This project models the decision and formatting logic of the document
retrieval pipeline of `document-intelligence`, a Java console application.
The application answers questions about the files in a folder.

- It lists the folder and keeps the files with a supported name.
- It picks a content reader per file and splits each file's text into segments.
- It ranks the segments by cosine similarity to the question.
- It renders the five best as attributed text blocks for the chat model.

The embedding model, the file readers, the splitter and the file system are
outside the model. They are the fields of one `Domain.Environment` value, a
record of total functions. A failure the Java code catches is a `None` or a
`Domain.Listing` case. An exception that leaves the pipeline is a `Domain.Failure`
in an `Err` result: a folder string that `Paths.get` rejects, a listing stream
that fails while it is read, or an embedding call that throws or returns
vectors that do not fit.

Modules, in dependency order:

| module | file | what it holds |
|---|---|---|
| `Wrappers` | wrappers.dfy | `Option`, `Result`, `Min`, and the two concatenation facts the proofs cite |
| `Text` | text.dfy | the `java.lang.String` operations used: `endsWith`, ASCII `toLowerCase`, `String.join`, `replace` and `trim`. It also holds the predicates and functions the contracts use: a prefix test, a first-occurrence search and a reference `SplitOn` that undoes a one-character join |
| `Domain` | domain.dfy | segments (text plus optional `file_name`), documents, directory entries, listing outcomes, the exceptions that escape, reader kinds, the environment |
| `FileFormats` | formats.dfy | `isSupportedFormat`, the reader if-chain of `extractContent`, `resolveDirectoryPath` |
| `Ingestion` | ingestion.dfy | `fetchUniqueTextSegmentsFromDirectory`: the filter, one task per file, the collecting loop |
| `Similarity` | similarity.dfy | `calculateCosineSimilarity` and `rankSegments`, over `real` |
| `TopK` | topk.dfy | sort by descending score and `limit(k)` over a map read in a given key order |
| `Retrieval` | retriever.dfy | `ContextRetriever.retrieve` and its `Source File: …\nContent: …` blocks |
| `RankerConsole` | console.dfy | `printTopRankedMatches` and `processDirectory`, with the printed lines returned as values |
| `KnowledgeBase` | knowledge.dfy | `summarizeDocument` and `searchDocuments` |
| `App` | app.dfy | `isExitCommand`, the session loop of `main`, the retriever's folder, and the typing delay of `stochasticPrint` |

## How scores are modelled

The loop of `calculateCosineSimilarity` accumulates `dot`, `normA` and `normB`.

- `Similarity.CosineSimilarity` keeps that loop over `real`.
- It returns 0 when either norm is 0.
- Otherwise it returns `dot * |dot| / (normA * normB)`. This is the signed square of `dot / sqrt(normA * normB)`, and it avoids the square root.

Signed squaring is strictly increasing (`Similarity.SignedSquareStrictlyIncreasing`), so every ranking, comparison and top-k result is the same as with the cosine. `Similarity.ScoreOfCosine` proves that, for any positive `s` with `s * s == normA * normB`, the score is exactly the signed square of `dot / s`, and that `dot / s` lies in [-1, 1] (Cauchy–Schwarz).

## How iteration order is modelled

`retrieve` and `printTopRankedMatches` stream the entry set of a `HashMap`. The Java code does not fix the order in which equal scores come out.

- `TopK.EnumerateKeys` picks some enumeration of the keys, which is returned as the ghost out-parameter `order`.
- The selection `TopK.SelectTop(m, order, k)` is a stable insertion sort on that order, followed by `Take`.
- `TopK.SelectTopScoresDeterministic` proves that the selected *scores* do not depend on the order. Only the choice among equal scores does.

## Model

Source paths are relative to the repository root.

| member | source | states |
|---|---|---|
| Text.ToLowerAscii | src/main/java/com/intelligence/TextSimilarityRanker.java:165 | lower-casing keeps the length and lowers every ASCII capital, character by character |
| Text.ToLowerAsciiIdempotent | src/main/java/com/intelligence/TextSimilarityRanker.java:171 | lower-casing an already lower-cased name changes nothing |
| Text.EndsWith | src/main/java/com/intelligence/TextSimilarityRanker.java:166-167 | definition: the last characters of the text are the suffix; the empty suffix ends every text |
| Text.Join | src/main/java/com/intelligence/TextSimilarityRanker.java:113 | definition of `String.join`: the parts in order with the separator between neighbours; no parts give ""; its content and length are stated by Text.JoinPartAt and Text.JoinLength |
| Text.ReplaceChar | src/main/java/com/intelligence/TextSimilarityRanker.java:202 | same length; each occurrence of the one character is replaced and every other character is kept |
| Text.Trim | src/main/java/com/intelligence/DocumentIntelligenceApp.java:56 | `trim` keeps a middle slice whose removed ends are all characters up to U+0020, and the result neither starts nor ends with one |
| Text.TrimIdempotent | src/main/java/com/intelligence/DocumentIntelligenceApp.java:65 | trimming a trimmed line changes nothing |
| Text.TrimOfTrimmed | src/main/java/com/intelligence/DocumentIntelligenceApp.java:65 | a text that neither starts nor ends with a character up to U+0020 is its own trim |
| Text.JoinLength | src/main/java/com/intelligence/agent/KnowledgeBaseTools.java:47 | a join is as long as all the parts plus one separator between each two neighbours |
| Text.JoinPartAt | src/main/java/com/intelligence/agent/KnowledgeBaseTools.java:47 | every part sits at its offset in the join (the earlier parts, each followed by one separator), and the separator follows every part but the last |
| Text.JoinStartsWithFirst | src/main/java/com/intelligence/agent/KnowledgeBaseTools.java:47 | a non-empty join starts with its first part |
| Text.SplitJoinRoundTrip | src/main/java/com/intelligence/agent/KnowledgeBaseTools.java:31 | joining lines with "\n" is undone by cutting at every "\n", when no line holds one |
| FileFormats.ResolveDirectoryPath | src/main/java/com/intelligence/TextSimilarityRanker.java:187-191 | empty input gives the default folder; a non-empty input `Paths.get` rejects throws; otherwise an absolute directory gives itself and anything else the default |
| FileFormats.IsSupportedFormat | src/main/java/com/intelligence/TextSimilarityRanker.java:164-168 | definition: the lower-cased name ends in ".txt", ".md", ".pdf", ".docx", ".csv" or ".json"; see FileFormats.CaseInsensitive and FileFormats.MarkdownLongSuffixIsRejected |
| FileFormats.ReaderFor | src/main/java/com/intelligence/TextSimilarityRanker.java:170-180 | definition: the if-chain on the lower-cased name; stated as a first match by FileFormats.ReaderForIsFirstMatch |
| FileFormats.ExtractContent | src/main/java/com/intelligence/TextSimilarityRanker.java:170-185 | definition: the chosen reader's lines, or no lines when it throws; stated by FileFormats.ExtractContentOutcome |
| FileFormats.ReaderForIsFirstMatch | src/main/java/com/intelligence/TextSimilarityRanker.java:171-180 | the reader chosen is k exactly when k's suffixes match the lower-cased name and no reader earlier in the chain (pdf, docx, csv, json, md/markdown, plain lines) matches |
| FileFormats.CaseInsensitive | src/main/java/com/intelligence/TextSimilarityRanker.java:164-168 | eligibility and reader choice are unchanged by lower-casing the name first |
| FileFormats.EligibleDispatch | src/main/java/com/intelligence/TextSimilarityRanker.java:164-180 | an eligible file reaches the Markdown reader only through ".md" and the plain-lines reader only through ".txt" |
| FileFormats.ExtractContentOutcome | src/main/java/com/intelligence/TextSimilarityRanker.java:170-185 | a reader that throws gives no lines; one that succeeds gives all of its lines |
| FileFormats.UpperCasePdfIsSupported | src/main/java/com/intelligence/TextSimilarityRanker.java:164-168 | "A.PDF" is eligible and read by the PDF reader |
| FileFormats.MarkdownLongSuffixIsRejected | src/main/java/com/intelligence/TextSimilarityRanker.java:164-179 | a name ending in ".markdown", in any case, is not eligible, although the dispatch would give it the Markdown reader |
| Ingestion.CollectSegments | src/main/java/com/intelligence/TextSimilarityRanker.java:124-131 | the collecting loop returns the reference concatenation of the successful tasks' segments |
| Ingestion.SuccessfulAppend | src/main/java/com/intelligence/TextSimilarityRanker.java:124-131 | collecting two runs of tasks is collecting each and concatenating, in order |
| Ingestion.FailureIsolated | src/main/java/com/intelligence/TextSimilarityRanker.java:126-130 | a failed task contributes nothing and the tasks after it are still collected |
| Ingestion.SuccessfulMembership | src/main/java/com/intelligence/TextSimilarityRanker.java:124-131 | a segment is collected exactly when some successful task produced it |
| Ingestion.EligibleFiles | src/main/java/com/intelligence/TextSimilarityRanker.java:96-99 | the filter keeps exactly the regular files with a supported name, and nothing else |
| Ingestion.EligibleFilesAppend | src/main/java/com/intelligence/TextSimilarityRanker.java:97-99 | filtering keeps the listing order: it commutes with concatenation |
| Ingestion.Tasks | src/main/java/com/intelligence/TextSimilarityRanker.java:110-122 | one task per eligible file, in file order |
| Ingestion.FileTask | src/main/java/com/intelligence/TextSimilarityRanker.java:111-120 | definition: the extracted lines joined with " ", tagged with the file name and split; a splitter exception makes the task fail |
| Ingestion.Corpus | src/main/java/com/intelligence/TextSimilarityRanker.java:92-138 | definition: a rejected folder string or an aborted listing escapes; an IOException or no eligible file gives no segments; otherwise the successful tasks' segments; see Ingestion.CorpusMembership |
| Ingestion.FetchSegments | src/main/java/com/intelligence/TextSimilarityRanker.java:92-138 | the result is the corpus of the folder; it is an exception exactly when `Paths.get` rejects the folder or the listing stream fails while read; an IOException from `Files.list` gives the empty list |
| Ingestion.EmptyCorpus | src/main/java/com/intelligence/TextSimilarityRanker.java:102-105 | no eligible file, or a listing that throws an IOException, gives the empty corpus |
| Ingestion.CorpusMembership | src/main/java/com/intelligence/TextSimilarityRanker.java:92-133 | for a folder that lists, a segment is in the corpus exactly when an eligible file's task succeeded and produced it |
| Ingestion.OneFailingFileOneGood | src/main/java/com/intelligence/TextSimilarityRanker.java:124-131 | with one failing and one good file, the corpus is exactly the good file's segments |
| Similarity.NormNonNegative | src/main/java/com/intelligence/TextSimilarityRanker.java:158 | the accumulated norm is never negative |
| Similarity.ZeroNormIffZeroVector | src/main/java/com/intelligence/TextSimilarityRanker.java:161 | a norm is 0 exactly when every component read is 0 |
| Similarity.CauchySchwarz | src/main/java/com/intelligence/TextSimilarityRanker.java:155-160 | after any number of steps the accumulators satisfy dot² ≤ normA·normB |
| Similarity.SignedSquareStrictlyIncreasing | src/main/java/com/intelligence/TextSimilarityRanker.java:161 | the signed square keeps the order of cosines |
| Similarity.Ratio | src/main/java/com/intelligence/TextSimilarityRanker.java:161 | definition: 0 when either norm is 0, otherwise the signed square of the dot product over the product of the norms; see Similarity.RatioBounds and Similarity.CosineRatio |
| Similarity.Score | src/main/java/com/intelligence/TextSimilarityRanker.java:154-162 | definition: the ratio of the three sums over the query's positions; see Similarity.ScoreBounds, Similarity.ScoreSelf and Similarity.ScoreOfCosine |
| Similarity.RatioBounds | src/main/java/com/intelligence/TextSimilarityRanker.java:161 | the guarded ratio lies in [-1, 1] |
| Similarity.ScoreBounds | src/main/java/com/intelligence/TextSimilarityRanker.java:154-162 | every score lies in [-1, 1] |
| Similarity.ScoreZeroVector | src/main/java/com/intelligence/TextSimilarityRanker.java:161 | a zero query or a zero document scores exactly 0 |
| Similarity.ScoreSelf | src/main/java/com/intelligence/TextSimilarityRanker.java:154-162 | a non-zero vector scores exactly 1 against itself |
| Similarity.CosineRatio | src/main/java/com/intelligence/TextSimilarityRanker.java:161 | for any root s of normA·normB, dot/s lies in [-1, 1] and the ratio is its signed square |
| Similarity.ScoreOfCosine | src/main/java/com/intelligence/TextSimilarityRanker.java:154-162 | the score of two vectors with non-zero norms is the signed square of their cosine, which lies in [-1, 1] |
| Similarity.ScoreIgnoresExtraComponents | src/main/java/com/intelligence/TextSimilarityRanker.java:156 | components of the document vector beyond the query's length do not change the score |
| Similarity.CosineSimilarity | src/main/java/com/intelligence/TextSimilarityRanker.java:154-162 | the three-accumulator loop computes the reference score, which lies in [-1, 1] |
| Similarity.ScoreMapKeys | src/main/java/com/intelligence/TextSimilarityRanker.java:146-151 | the map's keys are exactly the segments, so it has at most as many entries |
| Similarity.ScoreMapLastWins | src/main/java/com/intelligence/TextSimilarityRanker.java:149 | a segment's score is the one computed at its last position in the list |
| Similarity.ScoreMapBounded | src/main/java/com/intelligence/TextSimilarityRanker.java:146-151 | every value of the map lies in [-1, 1] |
| Similarity.ScoreMap | src/main/java/com/intelligence/TextSimilarityRanker.java:146-151 | definition: each segment in turn put with its score, a later equal segment overwriting; see Similarity.ScoreMapKeys and Similarity.ScoreMapLastWins |
| Similarity.ScoreSegments | src/main/java/com/intelligence/TextSimilarityRanker.java:146-151 | the put loop builds the reference map when every segment has a long enough vector, and reports a mismatch otherwise |
| Similarity.RankSegments | src/main/java/com/intelligence/TextSimilarityRanker.java:140-152 | embedding and scoring give the reference ranking, or its failure |
| Similarity.Ranking | src/main/java/com/intelligence/TextSimilarityRanker.java:140-152 | definition: an embedding call that throws or vectors that do not fit are the exception; otherwise the score map; see Similarity.RankingProperties |
| Similarity.RankingProperties | src/main/java/com/intelligence/TextSimilarityRanker.java:140-152 | a successful ranking has exactly the corpus segments as keys, at most one per segment, with values in [-1, 1] |
| TopK.Entries | src/main/java/com/intelligence/agent/ContextRetriever.java:25 | the entry set read in the given key order, one entry per key |
| TopK.SortByScore | src/main/java/com/intelligence/agent/ContextRetriever.java:26 | sorting permutes the entries |
| TopK.SortByScoreDescending | src/main/java/com/intelligence/agent/ContextRetriever.java:26 | the sort yields non-increasing scores |
| TopK.SortByScoreOfDescending | src/main/java/com/intelligence/agent/ContextRetriever.java:26 | entries already in descending order are left as they are |
| TopK.Take | src/main/java/com/intelligence/agent/ContextRetriever.java:27 | `limit(k)` keeps the first min(k, n) entries |
| TopK.SelectTop | src/main/java/com/intelligence/agent/ContextRetriever.java:25-27 | definition: the entries in the iteration order, stably sorted by descending score, then the first k; see TopK.SelectTopEntries and TopK.SelectTopMaximal |
| TopK.SortedEntries | src/main/java/com/intelligence/agent/ContextRetriever.java:25-26 | the sorted entry set holds each map entry exactly once, in descending order |
| TopK.SelectTopEntries | src/main/java/com/intelligence/agent/ContextRetriever.java:25-27 | min(k, the map's size) entries, descending, each an entry of the map |
| TopK.SelectTopDistinct | src/main/java/com/intelligence/agent/ContextRetriever.java:25-27 | no segment is selected twice |
| TopK.SelectTopMaximal | src/main/java/com/intelligence/agent/ContextRetriever.java:25-27 | any segment scoring above a selected one is itself selected |
| TopK.SelectTopComplete | src/main/java/com/intelligence/agent/ContextRetriever.java:25-27 | when k is at least the map's size, every entry is selected |
| TopK.SelectTopScoresDeterministic | src/main/java/com/intelligence/agent/ContextRetriever.java:25-27 | the selected scores are the same whatever the map's iteration order |
| TopK.SortedScoresUnique | src/main/java/com/intelligence/agent/ContextRetriever.java:26 | two non-increasing sequences with the same multiset of scores are equal |
| TopK.EnumerateKeys | src/main/java/com/intelligence/agent/ContextRetriever.java:25 | the iteration order visits every key of the map exactly once |
| Retrieval.FormatParseRoundTrip | src/main/java/com/intelligence/agent/ContextRetriever.java:33-35 | a block can be read back into its attribution and its text when the attribution has no line break |
| Retrieval.MissingNameLooksLikeUnknownFile | src/main/java/com/intelligence/agent/ContextRetriever.java:30-34 | a segment without a file name renders like one from a file called "Unknown" |
| Retrieval.FormatBlock | src/main/java/com/intelligence/agent/ContextRetriever.java:29-35 | definition: "Source File: ", the file name or "Unknown", "\nContent: ", the text; read back by Retrieval.FormatParseRoundTrip |
| Retrieval.Blocks | src/main/java/com/intelligence/agent/ContextRetriever.java:25-39 | definition: the blocks of the best five entries, in order; see Retrieval.BlocksSelectBest |
| Retrieval.RankedCorpus | src/main/java/com/intelligence/agent/ContextRetriever.java:22-23 | definition: the exception of the fetch, or the ranking of the fetched corpus |
| Retrieval.FormatAll | src/main/java/com/intelligence/agent/ContextRetriever.java:28-39 | one block per selected entry, in order, each the formatted segment |
| Retrieval.BlocksSelectBest | src/main/java/com/intelligence/agent/ContextRetriever.java:25-39 | min(5, the map's size) blocks, each rendering a segment of the map, and no segment left out scores above a rendered one |
| Retrieval.SmallMapFullyRendered | src/main/java/com/intelligence/agent/ContextRetriever.java:25-39 | with five segments or fewer, every segment is rendered |
| Retrieval.BlocksFromSegments | src/main/java/com/intelligence/agent/ContextRetriever.java:22-39 | at most five blocks, each rendering a segment the map was ranked from |
| Retrieval.ContextRetriever.Retrieve | src/main/java/com/intelligence/agent/ContextRetriever.java:20-40 | an exception of the fetch or of the ranking propagates; otherwise the result is the blocks of the ranked corpus in some iteration order: at most five, each rendering a corpus segment |
| RankerConsole.Flatten | src/main/java/com/intelligence/TextSimilarityRanker.java:202 | same length, every line break turned into a space, nothing else changed |
| RankerConsole.Snippet | src/main/java/com/intelligence/TextSimilarityRanker.java:202-203 | the reassigning snippet code computes the reference snippet |
| RankerConsole.SnippetShape | src/main/java/com/intelligence/TextSimilarityRanker.java:202-203 | a snippet is one line of at most 100 characters; a text of at most 100 is kept whole, a longer one becomes 97 characters and "...", exactly 100 |
| RankerConsole.MatchLine | src/main/java/com/intelligence/TextSimilarityRanker.java:200-208 | definition: the score, the file name or "Unknown", and the snippet of one entry; see RankerConsole.ReportShape |
| RankerConsole.Report | src/main/java/com/intelligence/TextSimilarityRanker.java:193-211 | definition: the header, one match line per selected entry, the footer; see RankerConsole.ReportShape |
| RankerConsole.MatchLines | src/main/java/com/intelligence/TextSimilarityRanker.java:199-209 | one match line per selected entry, in order |
| RankerConsole.ReportShape | src/main/java/com/intelligence/TextSimilarityRanker.java:193-211 | header, min(limit, the map's size) match lines in non-increasing score order, footer; each line shows a map entry's score, its file name or "Unknown", and a one-line snippet of at most 100 characters |
| RankerConsole.PrintTopRankedMatches | src/main/java/com/intelligence/TextSimilarityRanker.java:193-211 | the printing loop produces the reference report for some iteration order of the map |
| RankerConsole.ProcessDirectory | src/main/java/com/intelligence/TextSimilarityRanker.java:76-90 | an exception of the fetch propagates; an empty corpus prints nothing; a ranking failure propagates; otherwise the top five are reported |
| KnowledgeBase.Truncate | src/main/java/com/intelligence/agent/KnowledgeBaseTools.java:34-36 | at most 20032 characters; a body of at most 20000 is unchanged; a longer one keeps its first 20000 characters followed by the marker |
| KnowledgeBase.TruncateIdempotent | src/main/java/com/intelligence/agent/KnowledgeBaseTools.java:34-36 | truncating twice is truncating once |
| KnowledgeBase.SummaryReaderFor | src/main/java/com/intelligence/agent/KnowledgeBaseTools.java:26-29 | definition: the case-sensitive suffix chain ".pdf", ".docx", ".md", else the whole file; see KnowledgeBase.SummaryChoiceIsCaseSensitive |
| KnowledgeBase.ErrorText | src/main/java/com/intelligence/agent/KnowledgeBaseTools.java:40 | definition: the fixed error message around the file name |
| KnowledgeBase.SummarizeDocument | src/main/java/com/intelligence/agent/KnowledgeBaseTools.java:20-42 | definition: resolve, read, join with "\n", truncate, prefix; every exception gives the error text; stated by KnowledgeBase.SummaryOutcome |
| KnowledgeBase.SearchText | src/main/java/com/intelligence/agent/KnowledgeBaseTools.java:46-47 | definition: the block texts joined with "\n---\n"; see KnowledgeBase.SearchTextShape |
| KnowledgeBase.SummaryOutcome | src/main/java/com/intelligence/agent/KnowledgeBaseTools.java:20-42 | an invalid path or a failing reader gives the fixed error text; otherwise the prefix, the name and ":\n", then the truncated "\n"-join of the lines |
| KnowledgeBase.SuccessIsNotError | src/main/java/com/intelligence/agent/KnowledgeBaseTools.java:38-40 | a summary never equals the error text |
| KnowledgeBase.WholeFileBody | src/main/java/com/intelligence/agent/KnowledgeBaseTools.java:29-31 | a name with no reader suffix is read whole as one line, whose join is the file text itself |
| KnowledgeBase.SummaryBodyLines | src/main/java/com/intelligence/agent/KnowledgeBaseTools.java:31-36 | an untruncated body splits back into the reader's lines |
| KnowledgeBase.SummaryChoiceIsCaseSensitive | src/main/java/com/intelligence/agent/KnowledgeBaseTools.java:26-29 | "A.PDF" is read whole while "a.pdf" goes to the PDF reader |
| KnowledgeBase.SearchTextShape | src/main/java/com/intelligence/agent/KnowledgeBaseTools.java:45-47 | the search text is empty exactly when nothing was retrieved; otherwise it starts with the best block and is as long as the blocks plus one separator between neighbours |
| KnowledgeBase.KnowledgeBaseTools.SearchDocuments | src/main/java/com/intelligence/agent/KnowledgeBaseTools.java:45-47 | an exception of the fetch or of the ranking propagates; otherwise the retrieved blocks joined with "\n---\n" |
| App.EqualsIgnoreCaseIsFoldEquality | src/main/java/com/intelligence/DocumentIntelligenceApp.java:80-84 | `equalsIgnoreCase` holds exactly when the two case folds are equal |
| App.EqualsIgnoreCase | src/main/java/com/intelligence/DocumentIntelligenceApp.java:81-83 | definition: equal lengths and every pair of characters equal, or equal after upper-casing, or equal after lower-casing; see App.EqualsIgnoreCaseIsFoldEquality |
| App.IsExitCommand | src/main/java/com/intelligence/DocumentIntelligenceApp.java:80-84 | definition: the input equals "exit", "quit" or "bye" ignoring case; see App.ExitCommandByFold |
| App.IsBlank | src/main/java/com/intelligence/DocumentIntelligenceApp.java:59 | definition: every character is Java whitespace |
| App.ExitCommandByFold | src/main/java/com/intelligence/DocumentIntelligenceApp.java:80-84 | an input is an exit command exactly when its fold is "exit", "quit" or "bye" |
| App.ExitCommandExamples | src/main/java/com/intelligence/DocumentIntelligenceApp.java:80-84 | "EXIT", "Bye" and "exıt" (dotless i) are exit commands |
| App.NotExitCommandExamples | src/main/java/com/intelligence/DocumentIntelligenceApp.java:80-84 | "exits" and "stop" are not |
| App.SameDefaultFolder | src/main/java/com/intelligence/DocumentIntelligenceApp.java:34 | the application's resources folder is the ranker's default folder |
| App.BlankFolderIsNotDefault | src/main/java/com/intelligence/DocumentIntelligenceApp.java:59-60 | as written, a blank answer or "default" is handed to the retriever unchanged, not the resources folder |
| App.RetrieverDirectoryAsWritten | src/main/java/com/intelligence/DocumentIntelligenceApp.java:59-60 | as written: both branches hand the retriever the typed folder itself |
| App.RetrieverDirectory | src/main/java/com/intelligence/DocumentIntelligenceApp.java:59-60 | corrected: a blank answer or "default" gives the resources folder, any other answer itself |
| App.TurnOf | src/main/java/com/intelligence/DocumentIntelligenceApp.java:56-74 | definition: an exit word stops, an empty question skips, anything else is asked with the folder given by the rule |
| App.SessionChats | src/main/java/com/intelligence/DocumentIntelligenceApp.java:54-76 | definition: the chats of the turns in order, up to the first stop |
| App.RunSession | src/main/java/com/intelligence/DocumentIntelligenceApp.java:54-76 | the loop starts exactly the reference chats of the typed rounds, with the folder rule as written |
| App.CorrectedSessionMovesOnlyFolders | src/main/java/com/intelligence/DocumentIntelligenceApp.java:54-76 | the corrected session asks the same questions in the same order as the session as written; each folder is mapped by the intended rule |
| App.BlankFolderSession | src/main/java/com/intelligence/DocumentIntelligenceApp.java:59-60 | a blank folder line with any question the loop asks: as written the chat gets the blank folder, corrected the resources folder |
| App.HelloIsAsked | src/main/java/com/intelligence/DocumentIntelligenceApp.java:65-72 | "hello" trims to itself and is not an exit word, so it is a question the loop asks |
| App.SessionChatsShape | src/main/java/com/intelligence/DocumentIntelligenceApp.java:65-74 | at most one chat per round; every question asked is trimmed, non-empty and not an exit word |
| App.SessionStopsAtExit | src/main/java/com/intelligence/DocumentIntelligenceApp.java:67-70 | nothing typed after an exit word starts a chat |
| App.DelayBounds | src/main/java/com/intelligence/DocumentIntelligenceApp.java:156-159 | every delay lies in [8, 369]; a fast draw gives exactly 8; otherwise the delay tells the character class (sentence end, clause mark, other) |
| App.Delay | src/main/java/com/intelligence/DocumentIntelligenceApp.java:156-159 | definition: a base pause of 35 plus the draw, 300 more after ".?!", 100 more after ",:;", and 8 on a fast draw; see App.DelayBounds |
| App.StochasticPrint | src/main/java/com/intelligence/DocumentIntelligenceApp.java:150-165 | the step-wise updates of `delay` compute the reference delay for every character, within [8, 369] |

## Left out

- Concurrency: the virtual-thread executor, `submit` and `Future.get`. The file tasks are a sequence of outcomes; the collecting loop is modelled as written.
- Floating point: float products widened to double, NaN, `Double.compareTo` and the `%.4f` format. Scores are `real`.
- `Math.sqrt` and the division: the score is the signed square of the cosine (see above), tied to the cosine by `Similarity.ScoreOfCosine`.
- The embedding model, the splitter, the PDF, Word, CSV, JSON and Markdown readers, `Files.list`, `readAllLines`, `readString` and `Paths.get`. They are uninterpreted fields of `Domain.Environment`. An `InvalidPathException` from `Paths.get` is `isValidPath` being false: it escapes `resolveDirectoryPath`, `fetchUniqueTextSegmentsFromDirectory`, `retrieve` and `processDirectory` as `Domain.InvalidPath`, and `summarizeDocument` catches it (a `None` from `resolve`).
- Domain.Segment: a segment is keyed by its text and its `file_name` entry only. Any other metadata the library's splitter attaches (a chunk index, for one) is not modelled. If the splitter records one, two equal chunks of one file are two keys of the source's `HashMap`, but one key here (Similarity.ScoreMapLastWins).
- Tie order: which of several equal-scored entries is selected depends on the `HashMap`. The model leaves it to the ghost `order` and proves only order-independent facts, plus `TopK.SelectTopScoresDeterministic`.
- String lengths count characters, not UTF-16 code units.
- Text.ToLowerAscii: lowers ASCII letters only. This is exact for eligibility and for the reader choice of eligible names. The dispatch alone can differ on an ineligible name: "a.mar\u212Adown" (Kelvin sign) lowers to "a.markdown" in Java and reaches the Markdown reader, while here it gets the plain-lines reader. `extractContent` is only called on eligible names.
- App.UpperChar and App.LowerChar: cover the ASCII letters, the dotless ı and the dotted İ, not all of Unicode case mapping. Only these characters can compare equal to a letter of "exit", "quit" or "bye".
- `printTopRankedMatches` with a negative `limit` (which throws in `Stream.limit`): the limit is a `nat`.
- `TextSimilarityRanker.main` and its console loop; the model prints nothing and returns the report lines.
- The console and `Scanner` (end of input included): a session is the sequence of typed rounds. Building the assistant, `executeStreamingChat`, the streaming callbacks and `Thread.sleep` are out; a chat is the pair of folder and question.
- `PersistentChatMemoryStore`: it is file I/O and JSON. It ignores the memory id, so every conversation shares one file.
- `PdfContentReader`: a PDFBox wrapper whose line split depends on Java regular expressions.
- `DocumentAssistantAgent` and `EvaluationAgent`: annotated interfaces with no logic.
- App.StochasticPrint: takes the random draws as parameters and returns the delays instead of sleeping.
- Where the design and the code differ, the model follows the code. The design asks for strictly descending results with ties broken by corpus order; the code sorts a `HashMap` entry set, so ties are not ordered. The design also makes a segment's position part of its identity; the model keys segments by text and file name (see Domain.Segment above).

## Findings

| source | as written | input that shows it | evidently intended | confidence | as-written member | corrected member |
|---|---|---|---|---|---|---|
| src/main/java/com/intelligence/DocumentIntelligenceApp.java:59-60 | both branches build the retriever with the typed folder, and `DATA_RESOURCES_PATH` (line 34) is never used | an empty line, or "default", as the folder | a blank answer or "default" selects `./src/main/resources/` | not executed | App.BlankFolderIsNotDefault | App.RetrieverDirectory |

The session loop App.RunSession follows the code as written. The corrected rule is the `Corrected` session of App.SessionChats. App.CorrectedSessionMovesOnlyFolders relates the two sessions, and App.BlankFolderSession shows the input on which they differ.
