# aiwi shopping-assistant pipeline, modelled in Dafny

`aiwi.py` answers a free-text shopping question in three steps, wired as a
LangGraph graph:

1. **ChecklistGenerator** (`generate_checklist`). It asks the language model for
   a short reaction followed by a marker `[추천 리스트: name | category, ...]`.
   It then parses the reply into:
   - an acknowledgement message;
   - a list of `{keyword, category}` entries;
   - the `", "`-joined checklist of names.
2. **NaverSearcher** (`search_naver_items`). It runs one Naver shopping search
   per entry, asking for three listings sorted by similarity. A response with
   any status other than 200 counts as no listings.
3. **Recommender** (`compare_and_recommend`). It makes one recommendation per
   result group:
   - fewer than three listings: a fixed shortage notice;
   - otherwise: the model's comparison of the first three listings, under
     criteria looked up in a 27-entry category table, with a fallback text.

The model is pure and functional:
- The language model is a parameter `llm: string -> string`.
- The shopping search is a parameter `search: Request -> Response`.
- Every node returns the prompts it sent, so "no model call" is a statement
  about a value.
- The graph is function composition over an immutable state record. A node's
  update overwrites the keys it returns and carries the rest forward.

Files:
- `wrappers.dfy`: `Option`, `Result` and the `IndexOutOfRange` fault.
- `text.dfy`: Python's `str.strip()`, `split`, `join`, `find` and `index` on `seq<char>`.
- `checklist.dfy`: node 1's reply parser.
- `search.dfy`: node 2.
- `recommend.dfy`: node 3 and its criteria table.
- `pipeline.dfy`: the state record, the overwrite semantics, the three nodes
  and the whole run.

The model follows the code. Points of its behaviour worth knowing:
- **Lazy marker body.** The body capture `(.*?)` is lazy. It stops at the first
  `]` after the opening (it is not greedy), and it may span line breaks.
- **Empty names kept.** A segment such as `" | 가구"` yields an entry with an
  empty name. Nothing rejects empty names.
- **Category keeps `|`.** Only the first `|` splits a segment, so the category
  keeps any further `|`.
- **Message cut without a match.** The message is cut at `[추천 리스트:`, with no
  space after the colon. The regex needs the space. So a reply whose cut token
  is not followed by a space has its message cut, but no entries are extracted.
  `Checklist.CutWithoutSpaceExtractsNothing` states this.
- **Raised errors propagate.** Nothing catches an exception from the model call
  or from the search request, so one failure ends the whole run. Only a search
  response with a status other than 200 degrades, to an empty group. The
  oracles here are total functions, so raised errors are not modelled (see
  "Left out").

## Model

(In this table, "bar" means the `|` character.)

| member | source | states |
|---|---|---|
| Text.Strip | aiwi.py:64-65 | The result has no whitespace at either end and is no longer than the input. |
| Text.StripUnique | aiwi.py:64-65 | Write a string as whitespace, then a core with non-space ends, then whitespace. `strip()` returns exactly that core. |
| Text.StripSpec | aiwi.py:50 | Every string has such a decomposition, and `strip()` returns its core. Only end whitespace is removed. |
| Text.StripKeepsChars | aiwi.py:64-65 | Every character of a stripped string occurs in the original. |
| Text.StripIdempotent | aiwi.py:56 | Stripping an already stripped reply changes nothing. |
| Text.FirstIndex | aiwi.py:63 | The index holds the separator, and no separator occurs before it (the first bar). |
| Text.Split | aiwi.py:61 | `split` always returns at least one piece. |
| Text.SplitPiecesFree | aiwi.py:61 | No piece of a split contains the separator. |
| Text.SplitRejoins | aiwi.py:61 | Joining the pieces with the separator gives back the string. |
| Text.SplitJoin | aiwi.py:61 | Splitting a join of separator-free parts gives back the parts. |
| Text.Find | aiwi.py:56 | Returns the leftmost occurrence of the token, or none when the token occurs nowhere. |
| Text.FindAfterPrefix | aiwi.py:56 | A token whose first character does not recur in it, placed after text without the token, is found right after that text. |
| Text.Before | aiwi.py:56 | `split(token)[0]` is a prefix containing no occurrence of the token. If it is shorter than the input, the token starts right after it. |
| Checklist.SearchMarker | aiwi.py:53 | The regex search returns the leftmost position where the opening with the space is followed by some `]`. The capture is the text up to the first such `]`. No match means no position qualifies. |
| Checklist.MarkerAtFirstOpening | aiwi.py:53-54 | The first opening decides the search. If a `]` follows it, the match starts there and the body ends at the first `]`. Otherwise nothing matches at all. |
| Checklist.NoOpeningNoMatch | aiwi.py:53-54 | Without the opening there is no match. |
| Checklist.BodyOfPrefixed | aiwi.py:53-54 | Prose in which the cut token does not occur, then the marker whose body has no `]`, then anything: the captured body is the marker's body. |
| Checklist.NoCutNoOpening | aiwi.py:53-56 | Text without the cut token has no marker opening either. |
| Checklist.Message | aiwi.py:56 | The message has no whitespace at either end. |
| Checklist.MessageCutBeforeMarker | aiwi.py:53-56 | The message cut never lies after the regex match. |
| Checklist.MessageAtCut | aiwi.py:56 | When the cut token first occurs at `i`, the message is the stripped text before `i`. |
| Checklist.MessageOfPrefixed | aiwi.py:56 | Prose in which the cut token does not occur, followed by the token, becomes the message, stripped. |
| Checklist.ParseSegmentSpec | aiwi.py:62-65 | A segment is kept exactly when it contains a bar. The name then holds no bar, and both sides are trimmed. |
| Checklist.ParseSegmentOfPair | aiwi.py:62-65 | A name without a bar, a bar, then any category (further bars included) gives the two sides, stripped. |
| Checklist.BlankNameKept | aiwi.py:62-67 | An all-whitespace name is kept as the empty name. |
| Checklist.Keep | aiwi.py:59-67 | The segment loop yields at most one entry per segment. |
| Checklist.KeepAppend | aiwi.py:61-67 | Parsing a concatenation of segment lists concatenates the entries. Order is kept and nothing is merged. |
| Checklist.KeepFromSegments | aiwi.py:61-67 | Every entry is the parse of some segment. |
| Checklist.KeepSegmentAt | aiwi.py:61-67 | A kept segment's entry sits right after the entries of the segments before it. |
| Checklist.KeepStep | aiwi.py:61-67 | One more segment appends its entry, or nothing. |
| Checklist.SegmentWithoutBarDropped | aiwi.py:61-62 | A segment without a bar is dropped: the entries are those of the other segments. |
| Checklist.DuplicateSegmentsKept | aiwi.py:61-67 | A repeated segment yields two equal entries (no de-duplication). |
| Checklist.ParseBodyNoComma | aiwi.py:61-65 | Entry names are trimmed, and neither names nor categories contain a comma. |
| Checklist.SegmentNoComma | aiwi.py:62-65 | A comma-free segment yields a trimmed, comma-free name and a comma-free category. |
| Checklist.ParseBodyOfJoined | aiwi.py:61 | A body of comma-free segments joined with `,` parses segment by segment. |
| Checklist.CollectEntries | aiwi.py:59-67 | The source's loop, appending names and entries side by side, yields exactly the segment parse. The names list equals the entries' keywords, index by index. |
| Checklist.NoMarkerNoEntries | aiwi.py:53-62 | Without a regex match there are no entries, and the checklist string is `""`. |
| Checklist.NoCutWholeMessage | aiwi.py:50-56 | Without the cut token, the message is the whole stripped reply. |
| Checklist.JoinedNamesRecover | aiwi.py:77 | Join trimmed, comma-free names with `", "`, split on `,` and strip each piece: this gives back the names. |
| Checklist.ChecklistRecoversNames | aiwi.py:61-77 | Whenever an entry was accepted, the checklist string splits back into exactly the entries' names, in order. |
| Checklist.TwoEntries | aiwi.py:61-77 | The body of two segments `a` bar `x` and `b` bar `y`, separated by a comma and a space (all trimmed, comma-free, no bar in the names), gives `[{a,x},{b,y}]` and the checklist `a, b`. |
| Checklist.SegmentPair | aiwi.py:61-67 | The segments `a` bar `x` and ` b` bar `y` (the second with the space `", "` leaves) give the entries `{a,x}` and `{b,y}`, in order. |
| Checklist.ParseMarkedReply | aiwi.py:50-67 | A trimmed reply of prose without the cut token, the marker (body without `]`) and any tail: the message is the stripped prose and the entries are the parse of the body. |
| Checklist.CutWithoutSpaceExtractsNothing | aiwi.py:53-56 | A trimmed reply of prose without the cut token, the cut token NOT followed by a space, and a rest without the marker opening: the message stops at the token but no entries are extracted. |
| Checklist.NoOpeningAfterCut | aiwi.py:53 | In such a reply the marker opening occurs nowhere, so the regex cannot match. |
| Search.SearchAll | aiwi.py:84-106 | One group per entry, in entry order. Each group carries its entry's keyword and the listings of its own request, which are empty unless the status is 200. |
| Search.FailedRequestEmptiesGroup | aiwi.py:96 | A non-200 response leaves that entry's group empty. |
| Search.GroupDependsOnOwnRequest | aiwi.py:86-104 | A group depends only on its own entry's response. |
| Search.SearchAllAppend | aiwi.py:86-104 | Searching concatenated entry lists concatenates the groups. |
| Recommend.RecommendOne | aiwi.py:142-183 | The recommendation carries the entry's keyword and category. The model is asked (once) exactly when the group has at least three listings. |
| Recommend.RecommendFrom | aiwi.py:141-183 | Fails with the `IndexError` exactly when there are more groups than entries, at the first index past the entries. Otherwise it gives one recommendation per remaining group. |
| Recommend.RecommendFromAt | aiwi.py:141-183 | Output position `i - idx` is the loop body's result for entry `i` and group `i`. |
| Recommend.RecommendAll | aiwi.py:140-185 | Succeeds exactly when there are no more groups than entries, with one recommendation per group. Otherwise it fails at index `len(keywords)`. |
| Recommend.RecommendationContents | aiwi.py:141-183 | Recommendation `i` carries entry `i`'s keyword and category. Its summary is the shortage notice below three listings, and otherwise the stripped model answer to the prompt quoting the category's criteria. |
| Recommend.AskedOncePerComparableGroup | aiwi.py:150-177 | The prompts sent are exactly the comparison prompts of the groups with at least three listings, one each, in group order (`Prompts`). So their number is the number of such groups. |
| Recommend.ShortGroupIgnoresModel | aiwi.py:150-151 | A group below three listings gets the same recommendation whatever the model answers. |
| Recommend.PromptUsesFirstThree | aiwi.py:156-163 | Only the first three listings enter the comparison prompt. |
| Recommend.FallbackOnlyForUnknown | aiwi.py:153-155 | The fallback criteria are used exactly for categories the table lacks. |
| Recommend.TableMatchesOfferedCategories | aiwi.py:110-138 | The table's keys are exactly the 27 categories the extraction prompt offers (lines 31-35). |
| Pipeline.Then | aiwi.py:197-205 | The combined update writes exactly the keys either update writes. |
| Pipeline.ApplyKeepsUnwritten | aiwi.py:197-205 | Keys a node does not return keep their value. |
| Pipeline.ApplyThen | aiwi.py:197-205 | Folding two updates in turn equals folding their combination. |
| Pipeline.RunWritesEveryKey | aiwi.py:197-207 | A run folds one combined update into the starting state, and that update writes every key. |
| Pipeline.GenerateChecklist | aiwi.py:75-80 | Node 1 writes every key except the search results and the recommendations. It sends exactly one prompt, built from the question, and keeps the question. |
| Pipeline.SearchItems | aiwi.py:106 | Node 2 writes exactly the entries (unchanged) and the groups, one per entry. It asks the model nothing. |
| Pipeline.CompareAndRecommend | aiwi.py:109-185 | Node 3 succeeds exactly when the groups do not outnumber the entries. It writes exactly the groups (unchanged) and the recommendations, one per group. |
| Pipeline.RunFrom | aiwi.py:197-207 | A run through the three nodes never raises the recommender's `IndexError`. |
| Pipeline.RunReadsOnlyQuestion | aiwi.py:197-211 | A run depends on the starting state only through its question. |
| Pipeline.RunKeepsParse | aiwi.py:75-80 | The final state keeps the question and holds the parse of the model's reply to the extraction prompt. |
| Pipeline.RunAligned | aiwi.py:141-144 | In the final state, entries, groups and recommendations line up index by index, by keyword and category. |
| Pipeline.RunAsks | aiwi.py:150-177 | A run sends the extraction prompt, then exactly the comparison prompts of the entries whose search gave at least three listings, one each, in entry order. |
| Pipeline.FailedSearchGivesNotice | aiwi.py:96-151 | An entry whose response status is not 200 gets an empty group and the shortage notice. |
| Pipeline.RunOnMarkedReply | aiwi.py:50-80 | End to end: a trimmed reply of prose without the cut token, the marker (body without `]`) and any tail yields the body's entries and the stripped prose as the message. |

## Left out

- The model call `llm.invoke` (aiwi.py:50, 177) is the parameter `llm`, a deterministic total function. Exceptions it might raise and retries are not modelled.
- The HTTP search `requests.get` (aiwi.py:89-96) is the parameter `search`:
  - the URL, headers and credentials are not modelled;
  - a body that is not JSON is not modelled;
  - a listing holds only the `title` and `lprice` fields node 3 reads;
  - a listing without them (a `KeyError`) is not modelled;
  - a request that raises (a connection error, for example) or hangs (no timeout is set) is not modelled. In the source either one ends or stalls the whole run. Only a returned status other than 200 degrades, to an empty group (aiwi.py:96).
- Loading `.env`, the environment variables and the client construction (aiwi.py:4-17) are configuration I/O.
- All `print` logging (aiwi.py:69-73, 98-102, 147-148, 213-216) is console output with no effect on the state.
- Pipeline.ChecklistPrompt and Recommend.ComparisonPrompt keep only the values the templates embed, not the instruction prose around them (aiwi.py:22-48, 156-175). These are: the question (twice), and the keyword, the first three titles and prices, and the criteria.
- The LangGraph and `RunnableLambda` machinery and the module-level `app.invoke` call (aiwi.py:197-211) are replaced by explicit composition (`Pipeline.RunFrom`, `Pipeline.Invoke`). Schema checks the graph library might perform are not modelled.
- Recommend.RecommendFrom: when it fails with the `IndexError`, the prompts already sent for earlier groups are not reported. `Pipeline.RunFrom` shows this failure cannot occur in a run.
- Text.Split: its own contract only bounds the number of pieces. The content of the pieces is stated by `SplitRejoins`, `SplitPiecesFree` and `SplitJoin`.
- Text.IsSpace covers the code points Python's `str.isspace()` accepts. Other Unicode properties (case, normalisation) play no part and are not modelled.
