# Zero search engine: result filter and result store

This project models two parts of the zero search engine in Dafny and proves what they promise.

- **The result filter** (`zero-search-engine/filter.py`). It takes the candidate rows of one query and demotes rows in two passes.
  - The tracker pass adds twice the row's count of blacklisted script and link hosts to its rank. A count strictly above the median count is first replaced by the sentinel `RESULT_COUNT`.
  - The content pass adds `RESULT_COUNT` to the rank of every page whose word count, divided by the median word count, is at most one half. It also adds it to a page whose quotient happens to equal `RESULT_COUNT` exactly: the last masking step keeps every value equal to the sentinel. Every other page gets 0.
  - Then it sorts the rows by ascending rank.
- **The result store** (`zero-search-engine/storage.py`). This is an SQLite table keyed uniquely by (query, link). It supports:
  - insert-or-ignore, where the first write wins;
  - retrieval of all rows of a query in rank order;
  - an in-place overwrite of the relevance of one key.

Modules:

- `Wrappers` holds `Option`.
- `Sorting` is a key-based insertion sort. It stands for `sort_values` and for SQL `ORDER BY`, and its contract is sorted plus permutation.
- `Stats` holds the pandas median, kept doubled (`Median2`) so that half-integer medians stay exact. It also proves that at most half of a column lies strictly on either side of the median.
- `Pages` covers `tracker_urls` and the `split(" ")` word count.
- `Filtering` has two layers:
  - the specification functions `TrackerPass`, `ContentPass` and `Penalised` on sequences of rows;
  - the class `Filter`, whose methods update an array of rows column by column, as the pandas code does. Each method is proved to compute its specification function.
- `Storage` has the table functions `Inserted`, `Updated` and `Select`, and the class `DBStorage`. Its methods search a sequence of records with loops and are proved to compute those functions.

Where the code behaves differently from what a reader of its docstrings or of its schema might expect, the model follows the code:

- **The content penalty.** The docstring of `content_filter` (zero-search-engine/filter.py:94-98) says:
  - the normalised word count is added to the rank;
  - pages with fewer words than half the median are flagged.

  The code differs on both points:
  - it flags quotients that are at most 0.5, including exactly 0.5 (line 112);
  - it then zeroes every value other than the sentinel (line 113), so the penalty is either 0 or `RESULT_COUNT`.

- **Word count of an empty page.** The word count of a page is `len(text.split(" "))`, so an empty page counts 1 word, not 0.
- **A single candidate row.** Its tracker count is its own median, so it is never replaced by the sentinel. Its rank therefore still grows by twice its count. Its word quotient is exactly 1, so when `RESULT_COUNT` is 1 its rank also grows by 1. A lone row is left unchanged only when it has no tracker reference and `RESULT_COUNT` is not 1.
- **Relevance of a new row.** A freshly inserted row has no relevance (SQL NULL, modelled as `None`), not 0: the column has no default and the insert does not name it.
- **References without a host part.** A reference without a `//host` part, such as `evil-tracker.com/x`, has no hostname under `urlparse`, so it is never counted. A protocol-relative reference such as `//evil-tracker.com/x` does have one. The model takes the hostname function as a parameter and proves that references without a hostname are ignored (`Pages.UnhostedIgnored`).

## Model

| member | source | states |
|---|---|---|
| Pages.IsTracker | zero-search-engine/filter.py:37 | a reference is a tracker when its hostname is present and blacklisted; a reference without a hostname never is, and nothing is with an empty blacklist |
| Pages.CountTrackers | zero-search-engine/filter.py:36-37 | the number of references whose hostname is in the blacklist is at most the number of references |
| Pages.TrackerUrls | zero-search-engine/filter.py:29-37 | the tracker count of a page, taken over its script sources followed by its hrefs, is at most the number of those references |
| Pages.TrackerUrlsSplits | zero-search-engine/filter.py:36 | script sources and hrefs contribute independently: the count is the sum of the two separate counts |
| Pages.CountTrackersAppend | zero-search-engine/filter.py:36-37 | the count over a concatenation is the sum of the counts |
| Pages.CountTrackersZero | zero-search-engine/filter.py:37 | the count is 0 exactly when no reference has a blacklisted hostname |
| Pages.CountTrackersAll | zero-search-engine/filter.py:37 | the count equals the number of references exactly when every reference has a blacklisted hostname |
| Pages.UnhostedIgnored | zero-search-engine/filter.py:36-37 | a reference whose hostname is `None` never changes the count, wherever it stands |
| Pages.Split | zero-search-engine/filter.py:109 | `split(" ")` yields at least one piece and no piece contains a space |
| Pages.JoinSplit | zero-search-engine/filter.py:109 | joining the pieces with single spaces gives back the text |
| Pages.SplitJoin | zero-search-engine/filter.py:109 | splitting a join of space-free pieces gives back the pieces |
| Pages.SplitWord | zero-search-engine/filter.py:109 | a space-free prefix becomes part of the first piece of what follows it |
| Pages.WordCount | zero-search-engine/filter.py:109 | every word count is at least 1 |
| Pages.WordCountIsSpacesPlusOne | zero-search-engine/filter.py:109 | the word count is the number of spaces plus one, so an empty page counts 1 word |
| Sorting.InsertBy | zero-search-engine/filter.py:137 | inserting into a sorted sequence keeps it sorted and adds exactly that element |
| Sorting.SortBy | zero-search-engine/filter.py:137 | the result is sorted by the key, is a permutation of the input and has its length |
| Sorting.OrderOfTwo | zero-search-engine/filter.py:137 | any sorted permutation of two rows with different keys puts the smaller key first |
| Stats.MinMaxBound | zero-search-engine/filter.py:87 | every value of a column lies between its least and its greatest value |
| Stats.Median2 | zero-search-engine/filter.py:87 | twice the median of a non-empty column: the sum of the middle pair of the sorted column. It lies between twice the least and twice the greatest value; Stats.MedianSplitsInHalf proves its defining property |
| Stats.CountBeyond | zero-search-engine/filter.py:87 | the number of column values strictly beyond the median is at most the column length |
| Stats.CountBeyondAppend | zero-search-engine/filter.py:87 | the count over a concatenation is the sum of the counts |
| Stats.CountBeyondSort | zero-search-engine/filter.py:87 | sorting a column does not change how many values lie beyond a given point |
| Stats.SortedSplitsInHalf | zero-search-engine/filter.py:87 | in a sorted column at most half of the values lie strictly beyond the median formed by its middle elements |
| Stats.MedianSplitsInHalf | zero-search-engine/filter.py:87 | the median's defining property: at most half of the values lie strictly above it and at most half strictly below it |
| Stats.MedianWithin | zero-search-engine/filter.py:111 | the median lies within any bounds that hold for every value |
| Stats.MedianSingleton | zero-search-engine/filter.py:87 | the median of one value is that value |
| Stats.MedianPair | zero-search-engine/filter.py:87 | the median of two values is their mean, whatever their order |
| Filtering.TrackerCounts | zero-search-engine/filter.py:86 | one tracker count per row, each between 0 and the number of the row's references |
| Filtering.EffectiveCount | zero-search-engine/filter.py:87 | the count after the replacement is the count itself or the sentinel, and a count not above the median is kept |
| Filtering.TrackerPass | zero-search-engine/filter.py:86-88 | the rows after the tracker pass: as many rows as before, and only their ranks change |
| Filtering.TrackerPassEffect | zero-search-engine/filter.py:86-88 | each row keeps all but its rank; its rank grows by twice the sentinel when its count is strictly above the median, and by twice its count otherwise |
| Filtering.TrackerOutliersAtMostHalf | zero-search-engine/filter.py:87 | the sentinel replaces the counts of at most half of the rows |
| Filtering.TrackerSingleton | zero-search-engine/filter.py:86-88 | a lone row never gets the sentinel; its rank grows by twice its tracker count |
| Filtering.WordMedianPositive | zero-search-engine/filter.py:109-111 | the median word count is at least 1, so the division by it is defined |
| Filtering.WordCounts | zero-search-engine/filter.py:108-109 | one word count per row, each at least 1 |
| Filtering.Normalise | zero-search-engine/filter.py:111 | the quotient of a word count by the median is at most 0.5 exactly when the page is thin, and is 1 exactly when the count equals the median |
| Filtering.Threshold | zero-search-engine/filter.py:112 | a quotient at most 0.5 becomes the sentinel; any other value is kept |
| Filtering.KeepSentinel | zero-search-engine/filter.py:113 | the result is the sentinel or 0, and a value equal to the sentinel is kept |
| Filtering.ContentPenalty | zero-search-engine/filter.py:111-113 | the content penalty is 0 or the sentinel, and a thin page (quotient at most 0.5) always gets the sentinel |
| Filtering.ContentPass | zero-search-engine/filter.py:108-114 | the rows after the content pass: as many rows as before, and only their ranks change, each by 0 or by the sentinel |
| Filtering.ContentPassEffect | zero-search-engine/filter.py:108-114 | each row keeps all but its rank; its rank grows by 0 or by the sentinel. A thin page (quotient at most 0.5) always gets the sentinel. With a non-zero sentinel, a page gets it exactly when it is thin or its quotient equals the sentinel |
| Filtering.ThinIsBelowMedian | zero-search-engine/filter.py:112 | every thin word count lies strictly below the median |
| Filtering.ThinAtMostHalf | zero-search-engine/filter.py:111-112 | at most half of the rows are thin |
| Filtering.ContentSingleton | zero-search-engine/filter.py:108-114 | a lone row is never thin; its rank grows by 1 exactly when the sentinel is 1, because its quotient is 1 |
| Filtering.StagesAgree | zero-search-engine/filter.py:111-113 | the three masked assignments (divide by the median, sentinel for values at most 0.5, zero for values other than the sentinel) yield the integer penalty `ContentPenalty` |
| Filtering.TrackerPassKeepsWords | zero-search-engine/filter.py:135-136 | the tracker pass changes no page, so the content pass sees the original word counts |
| Filtering.Penalised | zero-search-engine/filter.py:135-136 | the rows after the tracker pass followed by the content pass: as many rows as before, and only their ranks change |
| Filtering.PenalisedEffect | zero-search-engine/filter.py:135-136 | after both passes each rank is the initial rank plus the tracker penalty plus 0 or the sentinel, and nothing else of the row changes; with a non-negative sentinel no rank decreases |
| Filtering.PenalisedSingleton | zero-search-engine/filter.py:135-136 | a lone row gets twice its tracker count, plus 1 when the sentinel is 1 |
| Filtering.PenalisedOnlyRanks | zero-search-engine/filter.py:86-114 | both passes change only ranks and keep the number of rows |
| Filtering.PermutationKeepsLinks | zero-search-engine/filter.py:137-139 | any rearrangement of the penalised rows has as many rows as the input and exactly its links, so no result is lost or invented |
| Filtering.SortedPair | zero-search-engine/filter.py:137 | the sorted result of two rows with different ranks lists the lower rank first |
| Filtering.TrackerScenario | zero-search-engine/filter.py:86-137 | of two equal pages where only the second loads a tracker script, the second comes last |
| Filtering.TrackerScenarioPass | zero-search-engine/filter.py:86-88 | in that scenario twice the median count is 1 (the median is 1/2), and only the second row gets twice the sentinel |
| Filtering.TrackerScenarioCounts | zero-search-engine/filter.py:29-37 | in that scenario the tracker counts are 0 and 1 |
| Filtering.EqualWordsNoContentPenalty | zero-search-engine/filter.py:108-114 | two rows with equal word counts get equal content penalties, so their rank difference is kept |
| Filtering.ContentScenario | zero-search-engine/filter.py:108-137 | of two equally ranked pages without references, with 100 and 10 words, the 10-word page comes last |
| Filtering.ContentScenarioTrackerPass | zero-search-engine/filter.py:86-88 | pages without references have median count 0 and are not changed by the tracker pass |
| Filtering.ContentScenarioWords | zero-search-engine/filter.py:109-111 | pages of 100 and 10 words have those word counts, and twice their median is 110 |
| Filtering.ContentScenarioPass | zero-search-engine/filter.py:108-114 | with 100 and 10 words twice the median is 110 (the median is 55), and only the 10-word row gets the sentinel |
| Filtering.TrackerColumn | zero-search-engine/filter.py:86 | the new column holds each row's tracker count |
| Filtering.WordColumn | zero-search-engine/filter.py:108-109 | the new column holds each row's word count |
| Filtering.ReplaceAboveMedian | zero-search-engine/filter.py:87 | every count strictly above the median becomes the sentinel; the others stay the same |
| Filtering.Divide | zero-search-engine/filter.py:111 | every word count is divided by the median, exactly |
| Filtering.ReplaceAtMostHalf | zero-search-engine/filter.py:112 | every quotient at most 0.5 becomes the sentinel; the others stay the same |
| Filtering.ZeroOthers | zero-search-engine/filter.py:113 | every value other than the sentinel becomes 0 |
| Filtering.AddToRank | zero-search-engine/filter.py:88 | each rank grows by its entry of the increment column, and nothing else changes |
| Filtering.Filter.constructor | zero-search-engine/filter.py:64-65 | the filter holds a fresh copy of the candidate rows; the caller's rows are not shared |
| Filtering.Filter.TrackerFilter | zero-search-engine/filter.py:67-88 | the rows become `TrackerPass` of the rows before |
| Filtering.Filter.ContentFilter | zero-search-engine/filter.py:90-114 | the rows become `ContentPass` of the rows before |
| Filtering.Filter.Filter | zero-search-engine/filter.py:116-139 | the result is the filter's new array: sorted by ascending rank, a permutation of the rows after the tracker pass and then the content pass, as long as the input and with exactly its links |
| Filtering.FilterResults | zero-search-engine/app.py:220-221 | the caller's rows are unchanged, and the ranked rows are a sorted permutation of the penalised rows |
| Storage.UniqueKeys | zero-search-engine/storage.py:40 | the UNIQUE(query, link) constraint: no two rows share a key; the definition is the contract |
| Storage.UniqueIds | zero-search-engine/storage.py:31 | the INTEGER PRIMARY KEY constraint: no two rows share an id; the definition is the contract |
| Storage.NewRecord | zero-search-engine/storage.py:84-87 | the row an insert adds carries the given rowid and key and no relevance |
| Storage.NextId | zero-search-engine/storage.py:31 | a new rowid is larger than every stored id. It is 1 on an empty table and otherwise one more than some stored id (the maximum) |
| Storage.Inserted | zero-search-engine/storage.py:84-90 | an insert keeps every existing row in place, adds at most one row, and leaves the key stored |
| Storage.InsertNew | zero-search-engine/storage.py:84-88 | inserting a new key appends exactly one row with the given values, no relevance and a fresh id; the existing rows are unchanged |
| Storage.InsertExisting | zero-search-engine/storage.py:89-90 | inserting an existing key changes nothing |
| Storage.InsertedHasKey | zero-search-engine/storage.py:84-90 | after an insert the key is stored |
| Storage.InsertFirstWins | zero-search-engine/storage.py:89-90 | a second insert under the same key, whatever its other values, leaves the table as the first insert left it |
| Storage.InsertKeepsValid | zero-search-engine/storage.py:31-40 | inserts keep the keys and the ids unique |
| Storage.SelectAfterInsert | zero-search-engine/storage.py:61-88 | a new row is seen by a later query under its own query, at the end, and by no other query |
| Storage.Updated | zero-search-engine/storage.py:111-114 | an update keeps the number of rows and every row's key |
| Storage.UpdateEffect | zero-search-engine/storage.py:111-114 | only relevance changes; the row keyed (query, link) gets the new value; every other row is unchanged |
| Storage.UpdateMissing | zero-search-engine/storage.py:111-114 | an update of a missing key changes nothing and adds no row |
| Storage.UpdateOverwrites | zero-search-engine/storage.py:112 | of two updates on one key the second wins; it overwrites, it does not accumulate |
| Storage.UpdateKeepsValid | zero-search-engine/storage.py:111-114 | updates keep every key and keep the keys and ids unique |
| Storage.InsertThenUpdate | zero-search-engine/storage.py:84-114 | a freshly inserted row, once updated, carries the new relevance, and the other rows are unchanged |
| Storage.Select | zero-search-engine/storage.py:61-65 | the selected rows are no more than the stored ones, and every one of them has the query |
| Storage.SelectMembers | zero-search-engine/storage.py:62 | a row is selected exactly when it is stored under the query |
| Storage.SelectEmpty | zero-search-engine/storage.py:61-65 | the selection is empty exactly when no row is stored under the query |
| Storage.SelectDistinctLinks | zero-search-engine/storage.py:40 | the rows of one query have distinct links |
| Storage.DistinctLinksPermutation | zero-search-engine/storage.py:62 | reordering rows with distinct links, as the rank order does, keeps the links distinct |
| Storage.SelectStep | zero-search-engine/storage.py:62 | scanning one more row adds it to the selection exactly when its query matches |
| Storage.DBStorage.constructor | zero-search-engine/storage.py:6-8 | opening the file keeps the rows already stored, or starts empty, and leaves the table present and valid |
| Storage.DBStorage.SetupTables | zero-search-engine/storage.py:10-45 | after the call the table exists and every row it already held is kept, so it is idempotent |
| Storage.DBStorage.InsertRow | zero-search-engine/storage.py:68-91 | the rows become `Inserted` of the rows before, and the table stays valid |
| Storage.DBStorage.UpdateRelevance | zero-search-engine/storage.py:93-116 | the rows become `Updated` of the rows before, and the table stays valid |
| Storage.DBStorage.QueryResults | zero-search-engine/storage.py:47-66 | the result is sorted by ascending rank, is a permutation of the rows stored under the query, holds exactly those rows, and has no two rows with the same link |

## Left out

- HTML parsing is not in the model, and `get_page_content` is modelled only through what it returns (zero-search-engine/filter.py:40-60). A page is given by the `src` of its `<script src>` tags, the `href` of its `<a href>` tags and its extracted text.
- URL parsing is not in the model: `urlparse(...).hostname` is a parameter of the model.
- URLs that `urlparse` rejects are not modelled. For example, an unbalanced IPv6 bracket such as `http://[::1` raises `ValueError`. That error aborts the tracker pass, `filter` and the search, while the model's hostname function is total and the model always returns a ranking.
- Loading the blacklist file (zero-search-engine/filter.py:5-6) and the `settings` module are not modelled: the blacklist and `RESULT_COUNT` are parameters.
- Floating point is not modelled. The median is kept doubled, and quotients are exact fractions. After line 113 every penalty is 0 or `RESULT_COUNT`, so the ranks stay integers and `round()` (zero-search-engine/filter.py:138) changes nothing. The model keeps integer ranks.
- Filtering.Filter.Filter: the order among rows of equal rank is not stated, because `sort_values` does not promise a stable order.
- Storage.DBStorage.QueryResults: the order among rows of equal rank is not stated, because SQL `ORDER BY` leaves it open.
- The source's behaviour on an empty candidate frame is not modelled. The row-wise `apply` of pandas returns a frame rather than a column when there are no rows, and adding it to the rank column most likely fails. Returning no rows for no input is a choice of this model.
- The result is a new array holding the rows, not a pandas DataFrame with an index.
- The SQLite connection, commits, cursors, the file `links.db` and concurrent access from several connections are not modelled. The table a connection finds is a parameter of `Storage.DBStorage.constructor`.
- NULL queries or links are not modelled; SQLite's `UNIQUE` treats NULLs as distinct. Integrity errors other than a duplicate key are not modelled either, and only duplicate keys can occur with these statements.
- Storage.NextId: the case where the largest rowid is 2^63 - 1 is not modelled. There SQLite picks an unused rowid at random.
- Of the web application only the filter call in `run_search` is modelled (zero-search-engine/app.py:220-221, `Filtering.FilterResults`). The escaping and rendering that follow it (app.py:222-226), the routes, the `search()` function that fetches candidates and inserts them, and the browser are not part of this model.
- The route `mark_relevant` itself is not modelled. Its call `update_relevance(query, link, 10)` (app.py:267) is covered by `Storage.DBStorage.UpdateRelevance`, which is proved for any relevance value.
