# Verified model of ProRAG's core logic

A Dafny model of the parts of ProRAG where correctness depends on several functions agreeing, or on every run of a
loop or protocol: citation rewriting and its client twin, the answer stream and its framing, the block and inline
markdown parsers, rank fusion, reranking and context cropping, chunking and embedding, the connector sync engine,
access-rule grants, and the daily spend caps.

Every loop and every object of the original is a Dafny method or class proved against a specification function or
predicate of the same module; what the original promises is then proved of that specification, for all inputs, all
runs or all reachable states. What a specification function decides (which keys are ingested, which number a marker
cites, which hits fit, which words a text has) is also proved in terms of characters, numbers and rows alone, so that
the results do not rest on these functions' own definitions. `dafny verify dfyconfig.toml` checks the whole project.

## Modules

- `Text`: the two languages' white space and decimal digits, `trim`, `split("\n")`, joining.
- `Citations`: the four rewriting passes, extraction, the client's splitter. A pattern is a deterministic matcher
  `MatchLen`; the central fact is that no marker holds an opening bracket after its first character
  (`InsideIsOpenerFree`), so matches never overlap and rewriting creates no new ones.
- `TokenGuards`, `ChatStream`: the guard as a class over its three fields, and the stream loop that drives it.
- `Sse`: printer, frame parser and buffering reader, over an arbitrary JSON codec.
- `Markdown`, `Inline`: the block parser over line classification, and the inline tokenizer.
- `Hits`, `Ranking`, `Fuse`, `Rerank`, `Crop`: a hit, the stable descending sort, and the three ranking stages over
  exact reals.
- `Chunking`, `Embedding`: windows over pages and over element groups; concurrent batches and the stored chunks.
- `Sync`: the item and document tables, one sync run as a class, and its specification on values. `SyncConcurrent`:
  the same run cut into single commits, interleaved with other connectors, uploads and failures.
- `AccessRules`: rules, documents and grant rows, with the operations on values and as a class.
- `Budget`: the gate and a transition system of requests in flight.

## Where the code differs from what it says

The model follows the code. Each of these has a lemma.

- `web-next/lib/citations.ts` says it mirrors the server's patterns. The two languages differ in what they call white
  space, a digit and a form of the letter s. The server cites `[source` + U+001F + `1]`, `[` + U+0661 + `]` and
  `(` + U+017F + `1)`, which the client shows as prose (`Citations.SpacingDisagreement`, `Citations.DigitDisagreement`,
  `Citations.LetterDisagreement`). `Citations.SameMarkersIff` gives the exact condition under which the two agree.
- `web-next/lib/markdown.ts` says the second row of a table, its separator, is dropped. A separator row that does not
  start with a bar is not taken into the table at all (`Markdown.SeparatorTakenIff`). It also says a list holds
  consecutive items of one kind; the code mixes kinds (`Markdown.ListIgnoresKind`).
- `prorag/chat/stream.py` says a line that starts with a bar is held. Characters are handed on one at a time, so text
  is held from the first bar of the line, wherever it stands (`TokenGuards.HeldSnoc`).
- `prorag/retrieve/crop.py` says the newest printing wins. When the best-ranked hit of a title has no date it keeps the
  slot, whatever the dates of the others (`Crop.WinnerWins`).
- `prorag/connectors/sync.py` calls the sweep the only reliable signal for deletions and moves. An object moved to a
  new key loses its document in the very sweep that sees the move: the new key is linked to the document of the old one,
  which is then deleted because the old key is gone. The new key stays synced with no document, and no later sweep
  reports it (`Sync.MovedObjectLosesDocument`). More generally a listed object loses its document if and only if a
  missing key of the connector links the same one (`Sync.IngestedHoldsDocumentIff`, `Sync.UnchangedHoldsDocumentIff`,
  `Sync.SharedDocumentStaysLost`). A key marked deleted that reappears with its old etag and size stays marked deleted
  (`Sync.StaysDeletedIff`). A changed object that comes back as something else, unreadable or refused leaves its old
  document behind with no link, and no sweep ever removes it (`Sync.SupersededIsOrphaned`, `Sync.OrphanedIff`,
  `Sync.OrphanSurvives`).
- `prorag/operations/budget.py` says the cap can be overshot by exactly one call. With `k` requests in flight it can be
  overshot by all `k` (`Budget.OvershootIsReached`), and by no more (`Budget.OvershootBound`).
- `prorag/ingest/core.py`: a failed rule check leaves the document without the grants of the rules not reached, for as
  long as document and rule exist (`AccessRules.FailedCheckWithholds`, `AccessRules.GrantedIffReached`); the history
  variable `missed` records them. While no check has failed the grants are exact (`AccessRules.GrantsAreExact`).

## Model

| member | source | states |
|---|---|---|
| Citations.InsideIsOpenerFree | prorag/chat/citations.py:15-22 | No marker of any form has an opening bracket after its first character. |
| Citations.MatchExtends | prorag/chat/citations.py:15-20 | Whether a marker matches, its length and its digits depend on its own characters only, whatever text follows. |
| Citations.MatchLocal | prorag/chat/citations.py:15-22 | Text that begins with a bracket, put behind any text, neither makes nor breaks a match begun before it. |
| Citations.Exclusive | prorag/chat/citations.py:15-20 | At most one of the four deviation patterns matches at any position. |
| Citations.MatchIff | prorag/chat/citations.py:15-22 | A pattern matches the first n characters if and only if they are written as its form: bracket, letters and white space as the pattern lists them, at least one digit, the closing bracket. |
| Citations.MarkerInProse | prorag/chat/citations.py:15-22 | A marker is found behind any text without brackets and before any text. |
| Citations.ParseDecimal | prorag/chat/citations.py:37-41 | Reading the printed form of a number gives that number. |
| Citations.MarkerCitesItsNumber | prorag/chat/citations.py:25-41 | For every number and every way to write a marker of each form, the normalized marker cites exactly the number printed in it. |
| Citations.WrittenFormsCite | prorag/chat/citations.py:44-56 | The same for (S12), (s12), [S12], [s12], [source 12] and [12] with any number, which resolves to the chunk at that place when there is one. |
| Citations.PassesFuse | prorag/chat/citations.py:25-33 | For every text and any two sets of deviation patterns, one pass after the other equals a single left-to-right pass over both sets; so passes commute and repeating one changes nothing. |
| Citations.NormalizeCitations | prorag/chat/citations.py:25-33 | The four passes in sequence give the text of the single marker-replacement pass. |
| Citations.NormalizeIdempotent | prorag/chat/citations.py:25-33 | Normalizing a normalized text changes nothing. |
| Citations.CanonicalsAreTheMarkers | prorag/chat/citations.py:22-38 | The canonical markers of the normalized text carry exactly the indices of the raw text's markers, in the same order and number. |
| Citations.CitedIsRaw | prorag/chat/citations.py:36-41 | The cited indices of the normalized text are the de-duplicated indices of the raw text's markers. |
| Citations.ExtractCitedIndices | prorag/chat/citations.py:36-41 | The loop over the canonical matches returns each index once, in order of first appearance. |
| Citations.Dedup | prorag/chat/citations.py:36-41 | De-duplication keeps exactly the elements of the list, none twice. |
| Citations.ResolveCitations | prorag/chat/citations.py:44-56 | The sources are the cited indices that exist, in order of citation, each with its own chunk. |
| Citations.ResolvedMember | prorag/chat/citations.py:44-56 | A source is resolved exactly when its number was cited, lies in range, and its chunk is the one at that number. |
| Citations.ResolvedAppend | prorag/chat/citations.py:49-55 | Sources come in the order in which they are cited. |
| Citations.MarkersGrow | prorag/chat/router.py:163-168 | The markers of a prefix of an answer are a prefix of the markers of the answer. |
| Citations.CitedGrows | prorag/chat/router.py:163-168 | The cited indices of a prefix are a prefix of the cited indices of the whole, so re-running extraction on growing text never withdraws or reorders a citation. |
| Citations.PiecesReassemble | web-next/lib/citations.ts:19-20 | The client's pieces concatenate to the text they were split from. |
| Citations.PiecesNonEmpty | web-next/lib/citations.ts:19-20 | No piece is empty. |
| Citations.PillsAreMarkers | web-next/lib/citations.ts:12-20 | The pieces the anchored pattern accepts are exactly the markers the splitter found, in order; no prose piece passes for one. |
| Citations.SameMarkersIff | web-next/lib/citations.ts:1-20 | The client's pills are the server's markers if and only if no marker of the server holds one of Python's own white space characters, a decimal digit beyond ASCII or the long s, and none of the client's a byte order mark. |
| Citations.ServerAndClientCite | web-next/lib/citations.ts:1-23 | Under that condition the indices the server extracts from the normalized text are the de-duplicated indices of the client's pills in the raw text. |
| Citations.ServerOnlyIsProse | web-next/lib/citations.ts:12-20 | Every text that is a marker for the server and holds a character only Python's classes take in is one marker for the server and no pill for the client. |
| Citations.SpacingDisagreement | web-next/lib/citations.ts:1-12 | A text the server cites and the client shows as prose: a separator control character for the space. |
| Citations.DigitDisagreement | web-next/lib/citations.ts:1-12 | Another one: an Arabic digit. |
| Citations.LetterDisagreement | web-next/lib/citations.ts:1-12 | Another one: a long s. |
| TokenGuards.HeldSnoc | prorag/chat/stream.py:66-84 | What one more character does to the held part of the current line: it is held exactly when the line already has a bar or the character is one. |
| TokenGuards.WsRunIs | prorag/chat/stream.py:68 | The run counter is the exact number of white space characters the text ends with. |
| TokenGuards.HoldingNext | prorag/chat/stream.py:66-84 | One turn of the loop keeps this: emitted is everything up to the first bar of the current line, pending is the rest, and the run counter is the white space the text ends with; or the text has just tripped the limit. |
| TokenGuards.TripSnoc | prorag/chat/stream.py:68-75 | Text that never reached the limit reaches it with one more character exactly when the run it ends with does, and then at that character first. |
| TokenGuards.TripPersists | prorag/chat/stream.py:63-75 | Later text does not move the point of truncation. |
| TokenGuards.DeliveredTripped | prorag/chat/stream.py:70-75 | For text that reaches the limit, what the client sees is the text up to the first such point and the notice, and nothing more. |
| TokenGuards.TokenGuard.constructor | prorag/chat/stream.py:49-53 | A new guard holds nothing and has emitted nothing. |
| TokenGuards.TokenGuard.Next | prorag/chat/stream.py:66-84 | One character: the invariant that ties the three fields to all text fed and emitted is kept. |
| TokenGuards.TokenGuard.Feed | prorag/chat/stream.py:55-85 | The same for any delta; a guard that is done returns nothing. |
| TokenGuards.TokenGuard.Flush | prorag/chat/stream.py:87-90 | After the flush all output ever handed out is `Delivered` of all text fed: a function of the concatenated input alone, not of how it was cut into deltas. |
| ChatStream.CiteNew | prorag/chat/router.py:165-168 | The citation events sent so far are, after every delta, the one-shot extraction of the text so far. |
| ChatStream.TakeDelta | prorag/chat/router.py:160-168 | One delta keeps token events, citation events, guard and accumulated answer in step. |
| ChatStream.AnswerTextAppend | prorag/chat/router.py:129-160 | The accumulated answer is the chunks' texts one after the other. |
| ChatStream.AnswerTextOne | prorag/chat/router.py:144-160 | An answer chunk contributes its delta, every other chunk nothing. |
| ChatStream.StreamAnswer | prorag/chat/router.py:127-177 | Over every stream of chunks: the accumulated answer is the text of the chunks taken, the token events spell what the guard delivers of it, and the citation events are the extraction of the accumulated answer; the loop stops early only when the white space limit was reached, and then at the first chunk that reached it. |
| ChatStream.KeepCitedMember | prorag/chat/router.py:194-195 | The streaming path keeps exactly the retrieved sources whose number was cited. |
| ChatStream.KeepCitedAscends | prorag/chat/router.py:194-195 | Sources numbered in ascending order stay in that order when the uncited ones are left out. |
| ChatStream.SamePersistedSources | prorag/chat/router.py:59-65 | For the same answer the one-shot and the streaming path persist the same sources; the streaming path has them in the order of their numbers. |
| Sse.IndexOfBlank | web-next/lib/sse.ts:83 | The first place where two newlines stand together, or -1 exactly when there is none. |
| Sse.ParseFrame | web-next/lib/sse.ts:31-45 | The last event line names the frame; the data is that of the last data line that parses. |
| Sse.EventIs | web-next/lib/sse.ts:35-36 | The event is the trimmed rest of the last event line, or message when there is none. |
| Sse.DataIs | web-next/lib/sse.ts:37-42 | The data is what the last data line that parses carries; lines that do not parse are passed over. |
| Sse.FrameDelivers | web-next/lib/sse.ts:86-88 | A frame delivers one event, named and with data as above, unless no data line parses or that data is null. |
| Sse.FramesReassemble | web-next/lib/sse.ts:82-85 | Frames and rest are the text cut at its blank lines, with nothing lost and no blank line left in any of them. |
| Sse.Drain | web-next/lib/sse.ts:82-89 | The inner loop delivers every completed frame that carries data, in order, and leaves the unfinished rest in the buffer. |
| Sse.StreamSse | web-next/lib/sse.ts:74-90 | Whatever the chunks, what is delivered and what stays in the buffer are those of their concatenation. |
| Sse.BlankStays | web-next/lib/sse.ts:83 | A blank line found is found again, at the same place, when more text follows. |
| Sse.FramesContinue | web-next/lib/sse.ts:82-89 | Reading a text in two parts, carrying the buffer over, gives the frames of reading it at once. |
| Sse.BodyDelivers | prorag/chat/stream.py:24-43 | One printed event is parsed back to its name and payload; a retry or comment frame delivers nothing. |
| Sse.PrintReadsBack | prorag/chat/stream.py:24-43 | Every sequence of events, heartbeats and retry lines reads back as exactly its events in order, with an empty buffer at the end. |
| Sse.ReadPrinted | web-next/lib/sse.ts:74-90 | The reader run on the printed text, however the network cuts it: it delivers exactly the events, in order, and its buffer ends empty. |
| Sse.BrokenOffDeliversPrefix | web-next/lib/sse.ts:77-90 | A connection lost at any character has delivered a prefix of the events, each of them whole. |
| Markdown.EndAt | web-next/lib/markdown.ts:48-138 | Every block takes at least the line it starts at and ends within the text, so every turn of the parser advances. |
| Markdown.SpansCover | web-next/lib/markdown.ts:48-138 | The blocks' line spans are in order, disjoint, start at a line with text, and contain every line with text exactly once. |
| Markdown.KindStays | web-next/lib/markdown.ts:45-46 | Only the kind of the last line can change when whole lines are appended, and only if it was plain. |
| Markdown.KindIs | web-next/lib/markdown.ts:54-131 | A line fits at most one of the block patterns, so its kind is the one it fits, whatever the order of the tests; it starts a table if and only if it begins with a bar and the next line is a separator row. |
| Markdown.HeadingIff | web-next/lib/markdown.ts:41-84 | A line is a heading of level n with text x if and only if it is written as n hashes, 1 to 3, white space and x. |
| Markdown.ListItemIff | web-next/lib/markdown.ts:42-111 | A line is an item with text x if and only if it is written as a dash, a star or digits with a dot, white space and x; it is numbered exactly when the mark has digits. |
| Markdown.FenceIff | web-next/lib/markdown.ts:39-67 | A line opens a code block of language l if and only if it is written as three backticks, l and white space. |
| Markdown.ClosesFenceIff | web-next/lib/markdown.ts:40-69 | A line closes one if and only if it is three backticks and white space. |
| Markdown.SeparatorIff | web-next/lib/markdown.ts:45-46 | A line is a separator row if and only if it is written as an optional bar, marks, a dash, white space, marks and an optional bar, marks being white space, colons, bars and dashes. |
| Markdown.CellsWritten | web-next/lib/markdown.ts:90-96 | The cells of a row written between bars are what stands between the bars, trimmed. |
| Markdown.HeadingBlock | web-next/lib/markdown.ts:78-84 | A heading line is a block of one line with its level and text. |
| Markdown.CodeBlock | web-next/lib/markdown.ts:62-76 | A code block holds the lines up to the first closing fence or the end, joined, under its language or the word code. |
| Markdown.TableBlock | web-next/lib/markdown.ts:86-103 | A table takes its lines up to the first that is no row; its header is the first line's cells and its rows the cells of the third line and all after it. |
| Markdown.ListBlock | web-next/lib/markdown.ts:105-118 | A list takes its lines up to the first that is no item; it is ordered as its first item is and holds each item's text. |
| Markdown.ParagraphBlock | web-next/lib/markdown.ts:120-136 | A paragraph holds its lines unchanged, up to the first that is blank or starts another block. |
| Text.TrimOf | web-next/lib/markdown.ts:52 | Trimming takes off the white space around a text and nothing else. |
| Text.LinesRejoin | web-next/lib/markdown.ts:49 | The lines of a text, joined with newlines, are the text. |
| Text.LinesOfJoin | web-next/lib/markdown.ts:49 | Lines joined with newlines split into the same lines. |
| Markdown.StopStays | web-next/lib/markdown.ts:69-136 | Where a block stopped before the end of the text, it still stops when lines are appended. |
| Markdown.BlockStays | web-next/lib/markdown.ts:48-138 | A block that does not reach the end keeps its kind, its extent and its content. |
| Markdown.SpansStay | web-next/lib/markdown.ts:48-138 | Appending whole lines leaves every span but the last as it was, and the last one still starts where it did. |
| Markdown.ParseIsStable | web-next/lib/markdown.ts:48-138 | The same for the blocks of a text and of that text with more lines behind a newline. |
| Markdown.SeparatorTakenIff | web-next/lib/markdown.ts:86-103 | A table goes beyond its first line if and only if its separator row starts with a bar; otherwise it has a header and no rows. |
| Markdown.ListIgnoresKind | web-next/lib/markdown.ts:105-118 | Read off the loop's condition: a list takes the next line if and only if it is an item of either kind. |
| Markdown.ParseBlocks | web-next/lib/markdown.ts:48-138 | The outer loop ends and returns the blocks of the specification. |
| Markdown.ParseBlock | web-next/lib/markdown.ts:62-136 | The chain of branches picks the specified block and advances. |
| Markdown.ParseCode | web-next/lib/markdown.ts:62-76 | A fenced block takes the lines up to its closing fence and the fence, or all lines when there is none. |
| Markdown.ParseTable | web-next/lib/markdown.ts:86-103 | A table takes the rows in sequence, and drops the first two from its body. |
| Markdown.ParseList | web-next/lib/markdown.ts:105-118 | A list takes the items in sequence; its first item decides whether it is ordered. |
| Markdown.ParseParagraph | web-next/lib/markdown.ts:120-136 | A paragraph takes lines up to a blank one or to one that starts another block, and at least one. |
| Inline.TokenizeInline | web-next/lib/markdown.ts:14-30 | The loop returns a tokenization: styled tokens exactly where the pattern matches, text from one match to the next. |
| Inline.StyledIff | web-next/lib/markdown.ts:13-26 | When each style is found, by the characters: code between backticks with none inside, bold between double stars, italics between single stars on one line, neither with a star inside, and never empty. |
| Inline.TokenizationIsUnique | web-next/lib/markdown.ts:14-30 | A text has only one such tokenization. |
| Inline.TokensRoundTrip | web-next/lib/markdown.ts:14-30 | Re-wrapping the tokens in their delimiters gives the text back; no token is empty and no two text tokens are adjacent. |
| Ranking.SortDescSorts | prorag/retrieve/crop.py:66 | The sort is descending, a permutation, and keeps elements of equal key in order. |
| Ranking.SortIsUnique | prorag/retrieve/crop.py:66 | Those properties leave only one result. |
| Ranking.SortDescIdentity | prorag/retrieve/crop.py:66 | A descending list is left as it is. |
| Fuse.RrfFuse | prorag/retrieve/fuse.py:13-32 | The nested loops over the dictionary give the first-seen hit of every chunk with its declared score, sorted; a length mismatch is an error. |
| Fuse.FuseArm | prorag/retrieve/fuse.py:23-30 | One list: the dictionary holds, in insertion order, the chunks seen so far with their scores so far. |
| Fuse.FirstSeenIs | prorag/retrieve/fuse.py:25-28 | One hit per chunk, each of them a hit that was given, and no chunk missing. |
| Fuse.FirstSeenAt | prorag/retrieve/fuse.py:25-30 | What is kept of a chunk is its very first hit, and chunks are kept in the order of their first hits. |
| Fuse.ScoreOfRank | prorag/retrieve/fuse.py:22-30 | One hit at rank r, counted from 0, in one list of weight w scores w / (61 + r). |
| Fuse.ScoresInResult | prorag/retrieve/fuse.py:22-32 | Every hit of the result belongs to some list and carries the weighted reciprocal-rank sum of its chunk. |
| Fuse.ScoreIgnoresOrder | prorag/retrieve/fuse.py:23-30 | Permuting the lists together with their weights changes no score. |
| Fuse.ScoreBound | prorag/retrieve/fuse.py:10-30 | With nonnegative weights and lists without repeats every score lies between 0 and the sum of the weights over 61. |
| Fuse.ScoreBeats | prorag/retrieve/fuse.py:23-30 | With positive weights, a chunk ranked above another in every list that has the other scores strictly more. |
| Fuse.DominantComesFirst | prorag/retrieve/fuse.py:13-32 | So it stands before the other in the result. |
| Rerank.FlatMeans | prorag/retrieve/rerank.py:38-39 | The guard fires exactly when there are at least two scores and any two of the five best differ by less than the spread; no other score exceeds one of those. |
| Rerank.GuardedOrderSurvives | prorag/retrieve/rerank.py:44-45 | The guarded list keeps the fused order, its scores are a permutation of the reranker's, and the later stable sort by score changes nothing; that reranking returns it exactly when the guard fires is part of RerankApi. |
| Rerank.LastRowWins | prorag/retrieve/rerank.py:75-77 | When several rows of the answer point to one hit, the last of them gives its score. |
| Rerank.NoRowNoScore | prorag/retrieve/rerank.py:75-77 | A hit no row points to scores 0. |
| Rerank.RerankApi | prorag/retrieve/rerank.py:58-88 | The scoring loop and every failure path: a failed call, no usable row or a usable row without a score give the input back. Otherwise, told from the rows alone: if any two of the five largest input scores lie within the spread, the hits keep their order and get a permutation of those scores from the highest down; if not, the result is one hit for every usable row, with that row's score, in stable descending order. |
| Rerank.FlatIsFiveWithin | prorag/retrieve/rerank.py:38-39 | Sorting, cutting at five and comparing the ends is the same as comparing any two scores that fewer than five others exceed. |
| Rerank.InputScoresAre | prorag/retrieve/rerank.py:71-77 | The scores filled in place are, by the rows of the answer: the last row for a hit decides, and 0 stands where there is none. |
| Rerank.ResultIsDrawnFromHits | prorag/retrieve/rerank.py:71-88 | Whatever the reranker answers, every result is one of the input hits with at most another score, and a result other than the input is in descending order. |
| Crop.WinnerWins | prorag/retrieve/crop.py:77-98 | The winning printing of a title is that of its first-ranked hit when that hit is undated, and otherwise of the first-ranked hit with the latest date. |
| Crop.WinsIsUnique | prorag/retrieve/crop.py:77-98 | That description fits one hit only. |
| Crop.OneMoreHit | prorag/retrieve/crop.py:77-98 | The three outcomes of one turn of the loop (append, drop the title and append, append under the cap or skip) lead from the declarative survivors of the hits so far to those of one hit more. |
| Crop.BooksOneMore | prorag/retrieve/crop.py:81-97 | The two dictionaries go on holding, for every title, its winner and how many of its document's hits were taken, up to the cap. |
| Crop.Deduplicate | prorag/retrieve/crop.py:68-98 | The loop that appends to and deletes from its own accumulator returns the declarative survivors. |
| Crop.SurvivorsAreFirstOfDocument | prorag/retrieve/crop.py:68-98 | With one date per document: of every title exactly the winning document's first `cap` ranked hits survive, or the winner alone when it belongs to no document. |
| Crop.SurvivorsHaveOnePrinting | prorag/retrieve/crop.py:68-98 | Survivors of one title belong to one document and date, and there are at most `cap` of them (or one). |
| Crop.CropContext | prorag/retrieve/crop.py:44-124 | Sorting, deduplication, pool choice, floor, clamp and the budget loop together compute the specified context, which ContextIsLongest, PoolIs and SurvivorsAreFirstOfDocument determine. |
| Crop.FloorIsPrefix | prorag/retrieve/crop.py:105-108 | On a descending pool the floor keeps exactly a prefix. |
| Crop.SelectShape | prorag/retrieve/crop.py:100-124 | On a descending pool the context is a prefix of it, with at least min(min_docs, pool) and at most max_docs hits, and more tokens than the budget only by its first min_docs hits. |
| Crop.ContextShape | prorag/retrieve/crop.py:44-124 | The same for every list of hits given to cropping, with the context best first. |
| Crop.SelectIsLongest | prorag/retrieve/crop.py:100-124 | On a descending pool the context is as long as it may be: as many hits as reach the floor, raised to min_docs and cut at max_docs, unless the next hit would exceed the token budget; a token count of zero counts as the number of words. |
| Crop.ContextIsLongest | prorag/retrieve/crop.py:44-124 | The same for every list of hits given to cropping. |
| Crop.PoolIs | prorag/retrieve/crop.py:100-101 | The pool holds exactly the hits with enough characters when there are min_docs of them, and all hits otherwise. |
| Crop.SelectAgain | prorag/retrieve/crop.py:100-124 | Selecting from a context gives that context. |
| Crop.CropTwice | prorag/retrieve/crop.py:44-124 | Cropping a cropped list changes nothing, with one date per document. |
| Chunking.WordsOfJoin | prorag/ingest/chunk.py:30-67 | Words joined by single spaces split into the same words. |
| Chunking.WordsSplit | prorag/ingest/chunk.py:30-31 | White space of any kind splits a text into the words before and after it. |
| Chunking.WordsKeepInk | prorag/ingest/chunk.py:30-31 | The words of a text, end to end, are the text without its white space. |
| Chunking.WindowsReassemble | prorag/ingest/chunk.py:53-77 | Dropping the first target - step elements of every window after the first gives the stream back. |
| Chunking.CeilDiv | prorag/ingest/chunk.py:57-76 | The quotient used to count windows is the least that reaches the numerator. |
| Chunking.WindowCount | prorag/ingest/chunk.py:53-77 | A nonempty stream has 1 + ceil(max(0, n - target) / step) windows. |
| Chunking.WindowAt | prorag/ingest/chunk.py:53-77 | Window `k` is the slice that starts at `k * step`. |
| Chunking.ChunkPages | prorag/ingest/chunk.py:34-77 | The word loop and the window loop return the specified chunks, numbered in order. |
| Chunking.PageChunksReassemble | prorag/ingest/chunk.py:34-77 | From the chunk texts alone: splitting them and dropping the shared words gives exactly the words of the pages, in order. |
| Chunking.PageChunksKeepInk | prorag/ingest/chunk.py:34-77 | No character is lost: the chunks' words, without those shared (the overlap, or all but one when it is not below the target), are end to end the pages' characters other than white space, in order. |
| Chunking.PageChunkAt | prorag/ingest/chunk.py:57-76 | Chunk k is the words from k times (target less those shared) on, target of them or as many as there are, joined by spaces. |
| Chunking.PageHoldsItsWords | prorag/ingest/chunk.py:45-48 | The words that carry a page's number are the words of that page, in order. |
| Chunking.PageSpanIsTight | prorag/ingest/chunk.py:62-73 | A chunk's page span begins at the page of its first word, ends at that of its last, and holds the pages of all its words. |
| Chunking.GroupsOfGroup | prorag/ingest/chunk.py:137-153 | The groups concatenate to the elements, each has one page and one pair of top headings, and neighbours differ. |
| Chunking.GroupingIsUnique | prorag/ingest/chunk.py:137-153 | Only one cut has those properties, so the groups are maximal. |
| Chunking.GroupByPageAndHeading | prorag/ingest/chunk.py:137-153 | The loop returns that cut. |
| Chunking.HullIsLeast | prorag/ingest/chunk.py:115-125 | The union box lies inside every box that holds all the boxes. |
| Chunking.UnionIsTight | prorag/ingest/chunk.py:115-125 | There is a box exactly when some element of the window has one, and it is the least box that holds them all. |
| Chunking.ChunkGroup | prorag/ingest/chunk.py:176-202 | One group: its windows become chunks, numbered on from those before. |
| Chunking.ChunkElements | prorag/ingest/chunk.py:156-204 | The chunks are those of the windows of the groups, group after group, numbered from 0. |
| Chunking.ChunksStayInPlace | prorag/ingest/chunk.py:156-204 | Every chunk of a document is numbered by its place and keeps to its window: all its elements have its page and its first two headings; its headings are those of its first element; its text splits into its words; what is embedded is the text, under the headings joined on a line of their own when there are any; and its box is the least that holds its elements' boxes. |
| Chunking.GroupWordsReassemble | prorag/ingest/chunk.py:156-204 | The windows of a group give back the group's words. |
| Chunking.GroupChunksKeepInk | prorag/ingest/chunk.py:171-202 | The chunks of each group stand together, and without the shared words give back the characters of the group's texts other than white space, in order. |
| Embedding.BatchesFlatten | prorag/llm.py:62-75 | Embedding batch by batch and flattening equals embedding text by text. |
| Embedding.BatchSizes | prorag/llm.py:62-63 | Every batch but the last is full, and none is empty. |
| Embedding.RunBatches | prorag/llm.py:67-75 | Whatever the order in which tasks take a slot and finish, with at most the allowed number in flight, the vectors land in order. |
| Embedding.EmbedTextsBatched | prorag/llm.py:52-75 | The result is the element-wise embedding of the texts, for every batch size and concurrency setting. |
| Embedding.StoreChunks | prorag/ingest/core.py:326-365 | Every stored chunk has its position as number, its own text and embedding text, and the vector of its embedding text (of its text when that is missing or empty), prose before tables. |
| Embedding.ProseCarriesItsEmbedding | prorag/ingest/core.py:331-356 | Read off the two expressions that choose a text: a prose chunk's vector is that of its stored embedding text unless that text is empty (or the two vectors coincide). |
| Sync.DiffObjects | prorag/connectors/sync.py:58-74 | The loop sorts the listing into new, changed and unchanged as specified on the item table. |
| Sync.DiffSizes | prorag/connectors/sync.py:58-74 | The three lists account for every listed object. |
| Sync.TodoIs | prorag/connectors/sync.py:125-129 | The objects handled are exactly the listed ones that are not unchanged, none twice. |
| Sync.HandledInOrder | prorag/connectors/sync.py:62-74 | New and changed objects are handled in the order of the listing. |
| Sync.IngestibleIff | prorag/connectors/sync.py:130-142 | An object is ingested if and only if the last characters of its key are, one by one, those of an allowed suffix or their capitals, and its size does not exceed the limit. |
| Sync.ListingOutcome | prorag/connectors/sync.py:111-170 | What a listing makes of a new or changed object, from its key, size and bytes alone: the item has its etag and size; it is skipped exactly when the ending is not allowed or the size exceeds the limit; failed when it cannot be read; synced with a document that holds its bytes when they parse. |
| Sync.SweepOutcome | prorag/connectors/sync.py:193-237 | The same after a sweep, where such an object holds its document if and only if no missing key of the connector linked one with the same bytes before. |
| Sync.ProcessOneKeeps | prorag/connectors/sync.py:129-160 | One object: the tables stay consistent, its item gets the listed version and is synced exactly when it links a document, all other items and all documents stay. |
| Sync.ProcessAllKeeps | prorag/connectors/sync.py:129-160 | The same for a whole list. |
| Sync.ProcessOneTellsTrue | prorag/connectors/sync.py:129-160 | The object's item is skipped exactly when its kind or size is refused, and links a document only if that document holds the hash of the object's own bytes; a document that was not there before is the one it links. |
| Sync.ProcessedTellTrue | prorag/connectors/sync.py:111-170 | The same for every new or changed object after a whole listing, whatever was handled after it. |
| Sync.ReportMatches | prorag/connectors/sync.py:127-160 | The report agrees with the tables at the end: skipped and errors count the handled objects whose items ended up so, new and changed count those of the new and of the changed objects that ended up synced. |
| Sync.ReportAddsUp | prorag/connectors/sync.py:127-160 | The four counters add up to the objects handled. |
| Sync.ProcessedKeeps | prorag/connectors/sync.py:111-170 | After one listing every listed key has an item with the listed version and everything else is as before; an item is left marked deleted exactly when it was and is unchanged. |
| Sync.SweepMirrorsListing | prorag/connectors/sync.py:193-237 | After a sweep every listed key has an item with the listed version, and every other item of the connector is marked deleted and links no document. |
| Sync.SweepReportAddsUp | prorag/connectors/sync.py:111-170 | The counters of a sweep and its unchanged keys add up to the listing. |
| Sync.ReportCountsDeleted | prorag/connectors/sync.py:217-233 | The deleted counter is the number of the connector's items that the sweep marked deleted. |
| Sync.SweepDeletesExactly | prorag/connectors/sync.py:217-231 | A sweep deletes exactly the documents linked from a missing key of its connector that was not yet marked deleted. |
| Sync.SweepDeletesOnlyOwn | prorag/connectors/sync.py:217-231 | Every document deleted was linked, before the sweep, from a key of this connector missing from the listing. |
| Sync.SecondSweepIsQuiet | prorag/connectors/sync.py:193-237 | Sweeping the same listing again reports all zeros and changes nothing but timestamps. |
| Sync.StaysDeletedIff | prorag/connectors/sync.py:63-73 | A listed key ends a sweep marked deleted if and only if it was marked deleted with the listed version. |
| Sync.DeletedIff | prorag/connectors/sync.py:217-231 | A document there after ingesting is deleted if and only if, before the sweep, a key missing from the listing linked it. |
| Sync.IngestedHoldsDocumentIff | prorag/connectors/sync.py:193-237 | A new or changed object whose bytes are or make a document ends a sweep synced; it holds its document if and only if no missing key of the connector linked, before the sweep, a document with the same bytes. |
| Sync.UnchangedHoldsDocumentIff | prorag/connectors/sync.py:193-237 | An unchanged object keeps its status, and keeps its document if and only if no missing key of the connector linked the same one before the sweep. |
| Sync.MovedObjectLosesDocument | prorag/connectors/sync.py:1-15 | An object moved to a new key ends the sweep synced with no document, its document is gone, and the next sweep reports all zeros. |
| Sync.SharedDocumentStaysLost | prorag/connectors/sync.py:218-231 | When a missing key links the document that a listed object, new, changed or unchanged, claims, the listed one loses it, the document is gone, and the next sweep neither reports nor restores it. |
| Sync.SupersededIsOrphaned | prorag/connectors/sync.py:101-108 | Rewriting an object's item leaves the document it linked unlinked if and only if no other item links it and the object does not come back, of a kind and size to ingest, with the same bytes. |
| Sync.LinkAfter | prorag/connectors/sync.py:129-160 | After a listing a new or changed object links a document of before if and only if it is of a kind and size to ingest and has that document's bytes. |
| Sync.OrphanedIff | prorag/connectors/sync.py:111-170 | A listing leaves a document unlinked if and only if every item that linked it was rewritten and no new or changed object has its bytes. |
| Sync.SweepOrphansIff | prorag/connectors/sync.py:193-237 | The deletions of a sweep leave a document there and unlinked if and only if handling the listing did. |
| Sync.OrphanSurvives | prorag/connectors/sync.py:193-237 | An unlinked document survives a sweep, still unlinked, if and only if no new or changed object has its bytes. |
| Sync.HistoryStaysConsistent | prorag/connectors/sync.py:173-237 | Links, unique hashes and deleted items stay right through every history of polls and sweeps by any connectors. |
| Sync.ReapOneMore | prorag/connectors/sync.py:218-231 | Deleting one key more, with the link read before the loop, even when its document is already gone, is the set-wise deletion of one key more; so the order of the loop does not matter. |
| Sync.Store.UpsertItem | prorag/connectors/sync.py:85-108 | Get or create one item, and set all its fields. |
| Sync.Store.IngestBytes | prorag/ingest/core.py:208-221 | Known bytes resolve to their document; new ones make one document or fail. |
| Sync.Store.ProcessObject | prorag/connectors/sync.py:129-160 | The branches for one object give the specified tables and count it once. |
| Sync.Store.ProcessObjects | prorag/connectors/sync.py:111-170 | The loop over new, then changed objects gives the specified tables and report. |
| Sync.Store.SyncIncremental | prorag/connectors/sync.py:173-190 | A poll does that and deletes nothing. |
| Sync.Store.FullSweep | prorag/connectors/sync.py:193-237 | The sweep with its deletion loop, in any order, gives the specified tables and report. |
| Sync.Store.DeleteKey | prorag/connectors/sync.py:218-231 | One key: its document goes if it is still there, every link to it becomes null, its item is marked. |
| SyncConcurrent.StepKeeps | prorag/connectors/sync.py:85-231 | Every single commit of a run keeps the tables consistent and the run's own bookkeeping true, and disturbs no other run's. |
| SyncConcurrent.InvHolds | prorag/connectors/scheduler.py:42-50 | The invariant survives every step of every connector, every upload, and every abort, in any order. |
| SyncConcurrent.AlwaysConsistent | prorag/connectors/scheduler.py:100-118 | In every interleaving: links point to existing documents, hashes are unique, deleted items hold no link. |
| SyncConcurrent.DeletesOnlyOwn | prorag/connectors/sync.py:217-231 | A document disappears only in a sweep's deletion of a key missing from its own listing that links it at that moment. |
| SyncConcurrent.CommitFailsIff | prorag/models.py:451-453 | Read off the commit step: a run is cut short by its own commit if and only if the document it resolved was deleted meanwhile; then nothing is written. |
| SyncConcurrent.RunsDoNotOverlap | prorag/connectors/scheduler.py:42-50 | In every behaviour, between two starts of one connector the first run released the lock by a step of its own. |
| SyncConcurrent.StepIsSequential | prorag/connectors/sync.py:111-231 | A step of an undisturbed run leaves what the sequential engine makes of the rest unchanged. |
| SyncConcurrent.UndisturbedRunRefinesEngine | prorag/connectors/sync.py:173-237 | A run alone in the database, in whatever order it deletes its missing keys, ends with the tables of the sequential engine. |
| SyncConcurrent.NextStepEnabled | prorag/connectors/sync.py:111-231 | An undisturbed run never gets stuck. |
| SyncConcurrent.RunCompletes | prorag/connectors/sync.py:111-237 | It always ends. |
| AccessRules.BestClears | prorag/admin/router.py:236-253 | The best chunk clears the floor exactly when some chunk does. |
| AccessRules.CandidatesAreClearing | prorag/ingest/core.py:156-190 | The query at confirmation and the check at ingestion agree on every document. |
| AccessRules.GrantDocsCounts | prorag/admin/router.py:350-368 | Confirming writes one grant for each candidate and changes no other. |
| AccessRules.AdmitCounts | prorag/ingest/core.py:185-204 | Ingesting writes one grant for each checked rule the document clears and changes no other. |
| AccessRules.ConfirmKeeps | prorag/admin/router.py:332-370 | Confirming keeps the grant table exact. |
| AccessRules.RemovalKeeps | prorag/admin/router.py:302-313 | So do deleting a rule, removing a document and granting by hand; no grant outlives its rule. |
| AccessRules.RequestsKeepExact | prorag/admin/router.py:256-370 | Every request, refused or not, keeps the table exact, apart from the pairs a failed check skipped. |
| AccessRules.AlwaysExact | prorag/admin/router.py:236-370 | Over every sequence of requests, failed checks included: for each confirmed rule and ready document a grant exists exactly once if some chunk clears the floor, and never otherwise, but for the pairs a failed check skipped. |
| AccessRules.GrantsAreExact | prorag/admin/router.py:236-370 | Over every sequence of requests in which no check failed: the same with no exception. |
| AccessRules.NothingMissed | prorag/ingest/core.py:184-204 | As long as every check reaches every confirmed rule, no pair is skipped. |
| AccessRules.RequestsDo | prorag/admin/router.py:256-370 | What each request does to the rule or document it names, field by field, and when it is refused. |
| AccessRules.RequestsStayLocal | prorag/admin/router.py:256-370 | No request touches another rule, another document, or a grant given by hand on another document. |
| AccessRules.GrantedIffReached | prorag/ingest/core.py:173-206 | After an ingest, a confirmed rule that the document clears has its grant if and only if the check reached it. |
| AccessRules.FailedCheckWithholds | prorag/ingest/core.py:205-206 | A sequence of requests with one failed check that ends with a confirmed rule, a ready document that clears it, and no grant. |
| AccessRules.VisibilityFollowsRules | prorag/retrieve/visibility.py:17-39 | A person sees a document if and only if it was granted by hand to them, or a confirmed rule of one of their groups matches it and no failed check skipped the pair. |
| AccessRules.VisibilityIsExact | prorag/retrieve/visibility.py:17-39 | While no check has failed: the same with no exception. |
| AccessRules.VisibleIff | prorag/retrieve/visibility.py:25-39 | Without a user and for an administrator every document is visible; for a person exactly those with a row for the public, that person, or a group of theirs. |
| AccessRules.Store.RuleCandidates | prorag/admin/router.py:236-253 | The query lists the matching ready documents, each once. |
| AccessRules.Store.CreateDraft | prorag/admin/router.py:256-266 | A draft for an existing group, or nothing. |
| AccessRules.Store.Update | prorag/admin/router.py:283-299 | Only drafts are edited, and only to existing groups. |
| AccessRules.Store.ConfirmDraft | prorag/admin/router.py:332-370 | Confirmation happens once, with the grants of the candidates. |
| AccessRules.Store.Delete | prorag/admin/router.py:302-313 | The rule and every grant tagged with it go. |
| AccessRules.Store.ApplyConfirmedRules | prorag/ingest/core.py:156-206 | The confirmed rules are checked one by one until one fails; when none fails, every confirmed rule was reached. |
| AccessRules.Store.IngestReady | prorag/ingest/core.py:365-368 | The document becomes ready together with the grants of the rules that were reached, which are all confirmed ones unless the check failed. |
| Budget.AdmittedIff | prorag/operations/budget.py:33-51 | A request is admitted if and only if the install, and its user when there is one, are below their hard caps; a warning comes exactly when that user has reached the soft cap. |
| Budget.GateIs | prorag/operations/budget.py:33-51 | The gate outright: the install's total against its cap, then the user's total against the user's cap times the multiplier, where an override replaces the common cap; the warning from the cap itself on. |
| Budget.SpentSnoc | prorag/cost.py:70-93 | A usage row adds its cost to the install's total and to its own user's, and to no other. |
| Budget.SpendingMoves | prorag/cost.py:70-93 | Each action's effect on a total: a charge and other usage add their cost where it counts, midnight sets it to 0, admission and completion change nothing. |
| Budget.BoundHolds | prorag/operations/budget.py:33-51 | Spent plus still spendable stays below cap plus `k` requests' cost, through every action. |
| Budget.InvAlways | prorag/cost.py:70-93 | The same in every state of every run. |
| Budget.OvershootBound | prorag/operations/budget.py:19-51 | In every interleaving of admissions, partial charges, completions, other usage and midnights, a day's gated spending stays below the hard cap plus `k` times the cost of a request, for the install and for every user with a positive cap. |
| Budget.OvershootIsReached | prorag/operations/budget.py:19-27 | From any spending below the cap, `k` requests checked before the first is charged spend all of that excess. |

## Left out

- SQL, the ORM, Postgres, vector and full-text search: tables are maps and sequences with the foreign-key rules written out; a query result is any list of the matching rows.
- The 32-bit column that stores an object's size, and its overflow.
- HTTP routes, authentication, sessions and configuration loading: settings are parameters.
- Model, embedding, reranking and OCR calls and file parsing: arbitrary functions or arbitrary results.
- JSON and UTF-8: a codec given by its two functions, with the properties the server relies on as a precondition; text is a sequence of characters. Events whose payload is null or whose name has outer white space are not sent by the server and not covered by the round trip.
- Citations.SameMarkersIff: decimal digits are those of Unicode 15.0, which Python 3.12 carries; a later version may add blocks. Text is a sequence of code points, so JavaScript's surrogate pairs are not modelled.
- Citations.ExtractCitedIndices: integers are unbounded, so neither Python's limit on the length of a decimal literal nor JavaScript's loss of precision above 2^53 is modelled.
- ChatStream.StreamAnswer: the answer persisted is the accumulated one, which includes the rest of the delta that tripped the guard; the contract relates it to what was shown, and storage itself is not modelled.
- ChatStream.SamePersistedSources: compares the two paths as sets; the streaming path stores sources by number, the other by order of citation.
- Rerank.RerankApi: a row whose index or score has the wrong type is not modelled apart from a failed call.
- Crop.SurvivorsAreFirstOfDocument: stated for a cap of at least one; with a cap of zero only the winners survive.
- Crop.SelectShape: stated for min_docs not above max_docs, as configured; otherwise the clamp may return min_docs hits.
- Crop.CropTwice: needs one date per document, as the documents table gives it.
- Title normalization: titles come as their normalized key, and untitled documents share the empty one.
- Floating-point rounding and NaN: scores, weights, costs and similarities are exact reals; zero vectors are any chunk below the floor.
- Chunking.WindowsReassemble: stated for an overlap of at least zero and a target of at least one word; a negative overlap leaves words out.
- Embedding.RunBatches: a failing batch, which cancels the whole call, is not modelled.
- Table artifacts: their texts are given, and how a table is cut into them is not modelled.
- Timers, heartbeats, idle aborts and retries; the choice between poll and sweep by the clock; completeness of incremental polls.
- Sync.Store.ProcessObjects: one run uses one time stamp for all its items; parse and embedding failures are one outcome, and a document row that a late failure leaves behind counts as a document.
- Sync.Store.FullSweep: listings have distinct keys, as object stores guarantee.
- SyncConcurrent.InvHolds: deleting a connector while it runs is not modelled, and two runs of one connector in different processes are excluded by the lock.
- AccessRules.AlwaysExact: excuses the pairs that failed checks skipped, since the code does write no grant for them; GrantsAreExact is the statement without them. Requests are atomic, so a confirmation racing with an ingest is not modelled; nor is deleting a group, nor a database failure inside a check, which takes the whole ingest with it.
- AccessRules.VisibilityFollowsRules: excuses the same pairs; VisibilityIsExact is the statement without them.
- SyncConcurrent.RunsDoNotOverlap: the scheduler's tick and the manual trigger appear only as starts under the lock; skipping a locked connector or waiting for it is not told apart.
- Budget.OvershootBound: a request's cost is bounded by the parameter `most`; caps and the multiplier do not change during a run.
- User interface, evaluation metrics, prompt building and setup scripts.
