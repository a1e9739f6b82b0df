# Window search: a verified model of the pairing engine and the line filter

Window Search is a VS Code extension for line-oriented text such as log files.
It has two algorithms, and this project models and proves both:

- **The window pairing engine** (`searchWindows`). It scans the document's lines for a
  begin marker and an end marker, using literal, case-sensitive substring containment.
  It then pairs each end occurrence, in ascending line order, with an unclaimed begin
  on a strictly earlier line. Under **FIFO** the end takes the earliest such begin;
  under **LIFO** it takes the latest. Finally it sorts the pairs by begin line and
  reports the begins and ends left unpaired, in scan order.
- **The line filter** behind the "remove matching lines" and "remove non-matching lines"
  commands (`removeLines`). It keeps a line iff `removeMatching ? !contains : contains`
  and reports how many lines were removed.

Files:

- `text.dfy`, module `Text`: `Contains`, the substring test (JavaScript's
  `String.prototype.includes`), proved equal to "the pattern occurs at some position".
- `search_engine.dfy`, module `SearchEngine`:
  - The scan (`Scan`, specified by `Occurrences`).
  - The two inner begin loops (`ScanForward`, `ScanBackward`, specified by `Select`).
  - The outer matching loop (`MatchPairs`). It keeps the source's `pairs`, `usedBegins`
    and `usedEnds`. It is specified by `Links`: the sequence of claims
    `Link(begin position, end position)` that the run makes, end by end.
  - The in-place sort (`SortPairs`), the unpaired collection (`Unclaimed`) and the
    whole search (`SearchWindows`).
  - Lemmas about whole runs.
- `line_filter.dfy`, module `LineFilter`: the filter loop (`RemoveLines`, specified by
  `Kept`) and its lemmas.

The source recovers an end's position with `endIndices.indexOf(end)`. The model carries
the loop index `j` instead. The behaviour is the same, because every occurrence object in
the list is distinct.

## Model

| member | source | states |
|---|---|---|
| `Text.Contains` | src/src/searchEngine.ts:32 | a line contains a marker iff the marker occurs at some position of the line |
| `Text.EmptyPatternMatchesEverything` | src/extension.ts:30-33 | the empty text is contained in every line, which is why callers reject an empty selection or marker |
| `SearchEngine.Occurrences` | src/src/searchEngine.ts:31-38 | an occurrence list is strictly ascending by line (at most one entry per line); each entry holds its line's exact text, and that text contains the marker |
| `SearchEngine.OccurrencesComplete` | src/src/searchEngine.ts:31-38 | a line is in the occurrence list iff it contains the marker |
| `SearchEngine.BothMarkersBothLists` | src/src/searchEngine.ts:32-37 | the two scans are independent: a line containing both markers is in the begin list and in the end list |
| `SearchEngine.Scan` | src/src/searchEngine.ts:27-38 | the scan loop builds exactly the begin and end occurrence lists of the whole document |
| `SearchEngine.FirstEligible` | src/src/searchEngine.ts:47-49 | the result is the lowest position from `from` on whose begin is unclaimed and on an earlier line; none exactly when there is no such position |
| `SearchEngine.LastEligible` | src/src/searchEngine.ts:65-67 | the result is the highest position below `upto` whose begin is unclaimed and on an earlier line; none exactly when there is no such position |
| `SearchEngine.SelectRule` | src/src/searchEngine.ts:44-80 | a claimed begin is unclaimed and on a strictly earlier line; under FIFO no lower position qualifies, under LIFO no higher one does; nothing is claimed iff no begin qualifies |
| `SearchEngine.ScanForward` | src/src/searchEngine.ts:47-60 | the forward inner loop returns the FIFO selection |
| `SearchEngine.ScanBackward` | src/src/searchEngine.ts:65-78 | the backward inner loop returns the LIFO selection |
| `SearchEngine.MatchPairs` | src/src/searchEngine.ts:40-80 | after all ends are processed in ascending order, `pairs`, `usedBegins` and `usedEnds` are the pairs and claimed positions of the specified run |
| `SearchEngine.Matching` | src/src/searchEngine.ts:44-80 | the claims the matching loop makes over all ends (`Links`, one claim per paired end, in end order) are well formed: each joins an existing begin to an end on a strictly later line, with no begin claimed twice |
| `SearchEngine.LinksWellFormed` | src/src/searchEngine.ts:49-57 | every claim joins an existing begin to an end on a strictly later line; no begin is claimed twice; claims follow end order, so each end claims at most once |
| `SearchEngine.ClaimedCount` | src/src/searchEngine.ts:56-57 | each pair adds exactly one new position to `usedBegins` and one to `usedEnds` |
| `SearchEngine.ClaimRule` | src/src/searchEngine.ts:46-79 | every pair of a run is the FIFO or LIFO selection of its end, given exactly the begins claimed by earlier ends |
| `SearchEngine.UnpairedEndRule` | src/src/searchEngine.ts:46-61 | an end left unpaired had no unclaimed begin on an earlier line when its turn came |
| `SearchEngine.NoneStaysUnpaired` | src/src/searchEngine.ts:46-61 | an end that finds no unclaimed begin on an earlier line at its turn is never paired, however many later ends are processed |
| `SearchEngine.EndPairedIff` | src/src/searchEngine.ts:46-79 | an end is paired iff, at its turn, some unclaimed begin lies on a strictly earlier line |
| `SearchEngine.TurnPrefix` | src/src/searchEngine.ts:46-79 | the claims made before a given claim are exactly the claims of the ends before that claim's end, so the used begins `ClaimRule` counts are those of the end's turn |
| `SearchEngine.FifoClaimsInOrder` | src/src/searchEngine.ts:44-61 | under FIFO the k-th pair takes the k-th begin: the claimed begins are always a prefix of the begin list |
| `SearchEngine.FifoPairsAlreadySorted` | src/src/searchEngine.ts:44-83 | under FIFO the pairs are already in begin-line order before the sort |
| `SearchEngine.LifoClaimsNest` | src/src/searchEngine.ts:62-80 | under LIFO windows never cross: if a later pair's begin is after an earlier pair's begin, it is not on a line before the earlier pair's end |
| `SearchEngine.LifoClaimOrderUnsorted` | src/src/searchEngine.ts:62-83 | under LIFO the claim order can differ from begin-line order (begins on lines 0 and 1, ends on lines 2 and 3), so the sort is needed |
| `SearchEngine.MatchedPairsValid` | src/src/searchEngine.ts:49-55 | every pair has begin line < end line < line count; both texts are their lines' exact texts and contain their markers; no two pairs share a begin line |
| `SearchEngine.SortPairs` | src/src/searchEngine.ts:83 | after the sort the pairs are in ascending begin-line order and are a permutation of the pairs before it |
| `SearchEngine.SortedPairsUnique` | src/src/searchEngine.ts:83 | when no two pairs share a begin line, there is only one begin-line ordering of them, so the sort's result does not depend on the sort algorithm or its stability |
| `SearchEngine.UnclaimedCount` | src/src/searchEngine.ts:86-94 | an unpaired list is as long as its scan list minus the claimed positions of that list |
| `SearchEngine.Unclaimed` | src/src/searchEngine.ts:86-94 | the collection of unpaired items: every item is an occurrence from the scan list, and there are no more of them than scanned occurrences |
| `SearchEngine.UnclaimedMembers` | src/src/searchEngine.ts:86-94 | an occurrence is unpaired iff its position was never claimed |
| `SearchEngine.UnclaimedInScanOrder` | src/src/searchEngine.ts:86-94 | the unpaired list stays in ascending line order, the order of the scan |
| `SearchEngine.MatchingConserves` | src/src/searchEngine.ts:46-94 | pairs plus unpaired begins is the number of begins; pairs plus unpaired ends is the number of ends |
| `SearchEngine.FirstLineEndNeverPaired` | src/src/searchEngine.ts:49 | an end on line 0 is never paired |
| `SearchEngine.ThreeBeginsOneEndFifo` | src/src/searchEngine.ts:44-94 | begins on lines 1, 3, 5 and an end on line 7: FIFO pairs line 1, and lines 3 and 5 stay unpaired in scan order |
| `SearchEngine.ThreeBeginsOneEndLifo` | src/src/searchEngine.ts:44-94 | the same document under LIFO: line 5 is paired, and lines 1 and 3 stay unpaired in scan order |
| `SearchEngine.SearchWindows` | src/src/searchEngine.ts:21-101 | the result's pairs are the run's pairs sorted by begin line, and its unpaired lists are the unclaimed begins and ends in scan order; the counts are conserved; every pair is valid |
| `LineFilter.RemoveLines` | src/extension.ts:66-93 | the loop keeps exactly the filter's kept lines; `removedCount` is the line count minus the kept count, and lies between 0 and the line count |
| `LineFilter.KeptMembers` | src/extension.ts:72-81 | a text is kept iff it is a line of the input that the keep rule accepts |
| `LineFilter.KeptIsOrderedSelection` | src/extension.ts:72-81 | the kept lines are exactly the input lines at the positions the keep rule accepts, in their original order and with their exact text |
| `LineFilter.KeptIdempotent` | src/extension.ts:78 | filtering the kept lines again with the same text and mode returns them unchanged |
| `LineFilter.SecondRunRemovesNothing` | src/extension.ts:93 | a second run of the same filter on its own output removes zero lines |
| `LineFilter.ModesPartition` | src/extension.ts:78 | the lines kept in "remove matching" mode and in "remove non-matching" mode together make up the input, as a multiset |
| `LineFilter.ModeCountsAddUp` | src/extension.ts:93 | the two modes' kept counts add up to the line count |
| `LineFilter.AllMatchingKeptWhole` | src/extension.ts:78 | when every line contains the text, "remove non-matching" keeps the whole document |
| `LineFilter.FilterExample` | src/extension.ts:72-81 | lines "a", "b", "a" filtered on "a": removing matching lines keeps "b"; removing non-matching lines keeps "a", "a" |

## Left out

- The webview panel in `src/src/windowSearchViewProvider.ts` is not modelled: messaging,
  caret moves, new-document creation and the HTML/JS/CSS template. It is editor glue. Its
  only relevant fact, that it passes non-empty markers (line 252), is a precondition of
  `SearchWindows`.
- The VS Code API calls in `src/extension.ts` are not modelled: command registration,
  `document.lineAt`, the whole-document `editor.edit`, and the information message with
  its pluralisation. They are host I/O and UI. The document is a given `seq<string>`.
  The empty-selection guards (lines 30-33 and 50-53) become `RemoveLines`'s precondition.
- Splitting the text into lines and joining the kept lines with `'\n'` are left out,
  along with the host's CR/LF handling. Inputs are already-split line sequences.
- `SortPairs`: the model does not reproduce the JavaScript engine's `Array.prototype.sort`
  algorithm. It sorts by insertion with the same comparison (`beginLine`) and is specified
  as a sorted permutation. `SortedPairsUnique` shows that any algorithm gives the same result here.
- Line numbers are unbounded `nat`s. JavaScript numbers are exact up to 2^53, far beyond
  any document's line count.
- The algorithm is the two-value type `PairingAlgorithm`. The source treats every
  non-`'FIFO'` value as LIFO, but the TypeScript type admits only the two literals.
- Strings are sequences of Dafny `char`, which is a Unicode scalar value. A JavaScript
  string is a sequence of UTF-16 code units, so a string holding a lone surrogate cannot
  be represented here. On well-formed strings, `Contains` agrees with `includes`. Neither
  the model nor the source does Unicode normalisation or case folding.
