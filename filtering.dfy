/**
 * The result-ranking filter of the search engine (class `Filter` in
 * zero-search-engine/filter.py). It takes the candidate rows of one query
 * and demotes rows in two passes, always in this order:
 *
 *   1. the tracker pass adds twice the row's tracker count to its rank,
 *      where a count strictly above the median count is first replaced by
 *      the sentinel `RESULT_COUNT`;
 *   2. the content pass adds `RESULT_COUNT` to the rank of every row whose
 *      word count, divided by the median word count, is at most one half
 *      (and to a row whose quotient happens to equal `RESULT_COUNT`);
 *
 * and then sorts the rows by ascending rank.
 *
 * `TrackerPass`, `ContentPass` and `Penalised` say what the passes compute
 * on the sequence of rows; the methods of `Filter` compute it in place on
 * an array, step by step as the source does, and are proved to agree.
 */
module Filtering {
  import opened Wrappers
  import opened Sorting
  import opened Stats
  import opened Pages

  /** One candidate row: its rank (lower is better) and its parsed page. */
  datatype Row = Row(query: string, rank: int, link: string, title: string, snippet: string, page: Page)

  /**
   * What the filter takes from its environment: the blacklisted hostnames,
   * the hostname of a URL, and the sentinel `RESULT_COUNT`.
   */
  datatype Config = Config(blacklist: set<string>, hostname: string -> Option<string>, resultCount: int)

  function RankOf(r: Row): int { r.rank }

  /** The links of a set of rows. */
  ghost function Links(rows: seq<Row>): set<string>
  {
    set r | r in rows :: r.link
  }

  // ---------------------------------------------------------------------
  // Tracker pass
  // ---------------------------------------------------------------------

  /** The tracker count of every row (zero-search-engine/filter.py:86). */
  function TrackerCounts(cfg: Config, rows: seq<Row>): (counts: seq<int>)
    ensures |counts| == |rows|
    ensures forall k :: 0 <= k < |rows| ==> 0 <= counts[k] <= |rows[k].page.scriptSrcs| + |rows[k].page.hrefs|
  {
    seq(|rows|, i requires 0 <= i < |rows| => TrackerUrls(cfg.blacklist, cfg.hostname, rows[i].page))
  }

  /** The count after the sentinel replaces a count strictly above the median. */
  function EffectiveCount(count: int, med2: int, resultCount: int): (c: int)
    ensures c == count || c == resultCount
    ensures 2 * count <= med2 ==> c == count
  {
    if 2 * count > med2 then resultCount else count
  }

  /**
   * The rows after `tracker_filter`: the same rows with only their ranks
   * changed.
   */
  function TrackerPass(cfg: Config, rows: seq<Row>): (r: seq<Row>)
    ensures |r| == |rows|
    ensures forall k :: 0 <= k < |rows| ==> r[k] == rows[k].(rank := r[k].rank)
  {
    if |rows| == 0 then []
    else
      var counts := TrackerCounts(cfg, rows);
      var med2 := Median2(counts);
      var r := seq(|rows|, i requires 0 <= i < |rows| =>
        rows[i].(rank := rows[i].rank + 2 * EffectiveCount(counts[i], med2, cfg.resultCount)));
      assert forall k :: 0 <= k < |rows| ==> r[k] == rows[k].(rank := r[k].rank);
      r
  }

  /**
   * Each row keeps everything but its rank, and its rank grows by twice the
   * sentinel when its tracker count is strictly above the median count, and
   * by twice its own tracker count otherwise.
   */
  lemma TrackerPassEffect(cfg: Config, rows: seq<Row>, i: int)
    requires 0 <= i < |rows|
    ensures |TrackerPass(cfg, rows)| == |rows|
    ensures var c := TrackerUrls(cfg.blacklist, cfg.hostname, rows[i].page);
            var med2 := Median2(TrackerCounts(cfg, rows));
            TrackerPass(cfg, rows)[i]
              == rows[i].(rank := rows[i].rank + (if 2 * c > med2 then 2 * cfg.resultCount else 2 * c))
  {
  }

  /** At most half of the rows have a tracker count strictly above the median. */
  lemma TrackerOutliersAtMostHalf(cfg: Config, rows: seq<Row>)
    requires |rows| > 0
    ensures var counts := TrackerCounts(cfg, rows);
            CountBeyond(counts, Median2(counts), true) <= |rows| / 2
  {
    MedianSplitsInHalf(TrackerCounts(cfg, rows), true);
  }

  /** A single row is its own median: it never gets the sentinel, only twice its count. */
  lemma TrackerSingleton(cfg: Config, row: Row)
    ensures TrackerPass(cfg, [row])
         == [row.(rank := row.rank + 2 * TrackerUrls(cfg.blacklist, cfg.hostname, row.page))]
  {
    var c := TrackerUrls(cfg.blacklist, cfg.hostname, row.page);
    assert TrackerCounts(cfg, [row]) == [c];
    MedianSingleton(c);
  }

  // ---------------------------------------------------------------------
  // Content pass
  // ---------------------------------------------------------------------

  /** The word count of every row (zero-search-engine/filter.py:108-109). */
  function WordCounts(rows: seq<Row>): (words: seq<int>)
    ensures |words| == |rows|
    ensures forall k :: 0 <= k < |rows| ==> words[k] >= 1
  {
    seq(|rows|, i requires 0 <= i < |rows| => WordCount(rows[i].page.text))
  }

  /** A word count `w` is thin when w / median <= 0.5, that is 4 * w <= 2 * median. */
  predicate IsThin(w: int, med2: int)
  {
    4 * w <= med2
  }

  /**
   * The penalty of a row with word count `w`: the sentinel for a thin page,
   * and also for a page whose quotient w / median equals the sentinel
   * exactly (2 * w == resultCount * 2 * median); nothing otherwise.
   */
  function ContentPenalty(w: int, med2: int, resultCount: int): (p: int)
    ensures p == 0 || p == resultCount
    ensures IsThin(w, med2) ==> p == resultCount
  {
    if IsThin(w, med2) || 2 * w == resultCount * med2 then resultCount else 0
  }

  /**
   * The rows after `content_filter`: the same rows with only their ranks
   * changed, each by 0 or by the sentinel.
   */
  function ContentPass(cfg: Config, rows: seq<Row>): (r: seq<Row>)
    ensures |r| == |rows|
    ensures forall k :: 0 <= k < |rows| ==> r[k] == rows[k].(rank := r[k].rank)
    ensures forall k :: 0 <= k < |rows| ==>
              r[k].rank == rows[k].rank || r[k].rank == rows[k].rank + cfg.resultCount
  {
    if |rows| == 0 then []
    else
      var words := WordCounts(rows);
      var med2 := Median2(words);
      seq(|rows|, i requires 0 <= i < |rows| =>
        rows[i].(rank := rows[i].rank + ContentPenalty(words[i], med2, cfg.resultCount)))
  }

  /** Every word count is at least 1, so the median is at least 1 and the division is safe. */
  lemma WordMedianPositive(rows: seq<Row>)
    requires |rows| > 0
    ensures Median2(WordCounts(rows)) >= 2
  {
    var words := WordCounts(rows);
    forall k | 0 <= k < |words|
      ensures 1 <= words[k] <= Max(words)
    {
      MinMaxBound(words, words[k]);
    }
    MedianWithin(words, 1, Max(words));
  }

  /**
   * Each row keeps everything but its rank, and its rank grows by 0 or by
   * the sentinel: by the sentinel exactly when the page is thin or its
   * quotient equals the sentinel.
   */
  lemma ContentPassEffect(cfg: Config, rows: seq<Row>, i: int)
    requires 0 <= i < |rows|
    ensures |ContentPass(cfg, rows)| == |rows|
    ensures var r := ContentPass(cfg, rows)[i];
            var w := WordCount(rows[i].page.text);
            var med2 := Median2(WordCounts(rows));
            && r == rows[i].(rank := r.rank)
            && (r.rank == rows[i].rank || r.rank == rows[i].rank + cfg.resultCount)
            && (IsThin(w, med2) ==> r.rank == rows[i].rank + cfg.resultCount)
            && (cfg.resultCount != 0 ==>
                  ((r.rank == rows[i].rank + cfg.resultCount) <==> (IsThin(w, med2) || 2 * w == cfg.resultCount * med2)))
  {
  }

  /** The number of thin word counts in `s`. */
  function CountThin(s: seq<int>, med2: int): nat
  {
    if s == [] then 0 else (if IsThin(s[0], med2) then 1 else 0) + CountThin(s[1..], med2)
  }

  lemma {:induction false} ThinIsBelowMedian(s: seq<int>, med2: int)
    requires forall k :: 0 <= k < |s| ==> s[k] >= 1
    requires med2 > 0
    ensures CountThin(s, med2) <= CountBeyond(s, med2, false)
  {
    if s != [] {
      ThinIsBelowMedian(s[1..], med2);
    }
  }

  /** At most half of the rows are thin. */
  lemma ThinAtMostHalf(rows: seq<Row>)
    requires |rows| > 0
    ensures var words := WordCounts(rows);
            CountThin(words, Median2(words)) <= |rows| / 2
  {
    var words := WordCounts(rows);
    WordMedianPositive(rows);
    ThinIsBelowMedian(words, Median2(words));
    MedianSplitsInHalf(words, false);
  }

  /**
   * A single row is never thin, but its quotient is 1, so it is penalised
   * exactly when the sentinel is 1.
   */
  lemma ContentSingleton(cfg: Config, row: Row)
    ensures ContentPass(cfg, [row])
         == [row.(rank := row.rank + (if cfg.resultCount == 1 then 1 else 0))]
  {
    var w := WordCount(row.page.text);
    assert WordCounts([row]) == [w];
    MedianSingleton(w);
    assert 2 * w == cfg.resultCount * (2 * w) <==> cfg.resultCount == 1;
  }

  // ---------------------------------------------------------------------
  // The staged computation of lines 111-114
  // ---------------------------------------------------------------------

  /** A quotient num / den with den > 0, as the float column holds it. */
  datatype Ratio = Ratio(num: int, den: int)

  /** A word count divided by the median: w / (med2 / 2) (zero-search-engine/filter.py:111). */
  function Normalise(w: int, med2: int): (x: Ratio)
    ensures x.den == med2
    ensures AtMostHalf(x) <==> IsThin(w, med2)
    ensures EqualsInt(x, 1) <==> 2 * w == med2
  {
    Ratio(2 * w, med2)
  }

  /** `x <= 0.5`. */
  predicate AtMostHalf(x: Ratio)
  {
    2 * x.num <= x.den
  }

  /** `x == k`. */
  predicate EqualsInt(x: Ratio, k: int)
  {
    x.num == k * x.den
  }

  /** On one value: a quotient of at most one half becomes the sentinel (zero-search-engine/filter.py:112). */
  function Threshold(x: Ratio, resultCount: int): (y: Ratio)
    ensures AtMostHalf(x) ==> EqualsInt(y, resultCount)
    ensures !AtMostHalf(x) ==> y == x
  {
    if AtMostHalf(x) then Ratio(resultCount, 1) else x
  }

  /** On one value: anything but the sentinel becomes 0 (zero-search-engine/filter.py:113). */
  function KeepSentinel(x: Ratio, resultCount: int): (y: Ratio)
    ensures EqualsInt(y, resultCount) || y == Ratio(0, 1)
    ensures EqualsInt(x, resultCount) ==> y == x
  {
    if EqualsInt(x, resultCount) then x else Ratio(0, 1)
  }

  /** The value a `Ratio` adds to the rank. */
  function Value(x: Ratio): int
    requires x.den > 0
  {
    x.num / x.den
  }

  lemma ExactQuotient(k: int, d: int)
    requires d > 0
    ensures (k * d) / d == k
  {
    var q, r := (k * d) / d, (k * d) % d;
    assert (k - q) * d == r by {
      assert k * d == q * d + r;
    }
    if k - q >= 1 {
      MulAtLeast(k - q - 1, d);
    }
  }

  lemma MulAtLeast(a: nat, d: nat)
    ensures a * d >= 0
  {
  }

  /**
   * The three masked assignments of the source compute the penalty of
   * `ContentPenalty`, and the value left in the column is an integer.
   */
  lemma StagesAgree(w: int, med2: int, resultCount: int)
    requires w >= 1 && med2 > 0
    ensures KeepSentinel(Threshold(Normalise(w, med2), resultCount), resultCount).den > 0
    ensures Value(KeepSentinel(Threshold(Normalise(w, med2), resultCount), resultCount))
         == ContentPenalty(w, med2, resultCount)
  {
    if !IsThin(w, med2) && 2 * w == resultCount * med2 {
      ExactQuotient(resultCount, med2);
    }
  }

  // ---------------------------------------------------------------------
  // Both passes
  // ---------------------------------------------------------------------

  /** The rows after both passes, before sorting. */
  function Penalised(cfg: Config, rows: seq<Row>): (r: seq<Row>)
    ensures |r| == |rows|
    ensures forall k :: 0 <= k < |rows| ==> r[k] == rows[k].(rank := r[k].rank)
  {
    ContentPass(cfg, TrackerPass(cfg, rows))
  }

  /** The tracker pass changes no page, so the content pass sees the same word counts. */
  lemma TrackerPassKeepsWords(cfg: Config, rows: seq<Row>)
    ensures WordCounts(TrackerPass(cfg, rows)) == WordCounts(rows)
  {
  }

  /**
   * Each final rank is the initial rank plus a tracker penalty (twice the
   * count, or twice the sentinel for a count above the median) plus a
   * content penalty (0 or the sentinel); nothing else of the row changes.
   * With a non-negative sentinel no rank decreases.
   */
  lemma PenalisedEffect(cfg: Config, rows: seq<Row>, i: int)
    requires 0 <= i < |rows|
    ensures |Penalised(cfg, rows)| == |rows|
    ensures var r := Penalised(cfg, rows)[i];
            var c := TrackerUrls(cfg.blacklist, cfg.hostname, rows[i].page);
            var tracker := if 2 * c > Median2(TrackerCounts(cfg, rows)) then 2 * cfg.resultCount else 2 * c;
            var content := r.rank - rows[i].rank - tracker;
            && (content == 0 || content == cfg.resultCount)
            && r == rows[i].(rank := r.rank)
    ensures cfg.resultCount >= 0 ==> Penalised(cfg, rows)[i].rank >= rows[i].rank
  {
    var t := TrackerPass(cfg, rows);
    TrackerPassEffect(cfg, rows, i);
    ContentPassEffect(cfg, t, i);
    assert Penalised(cfg, rows)[i] == ContentPass(cfg, t)[i];
  }

  /** A single row gets twice its count, plus 1 when the sentinel is 1. */
  lemma PenalisedSingleton(cfg: Config, row: Row)
    ensures Penalised(cfg, [row])
         == [row.(rank := row.rank + 2 * TrackerUrls(cfg.blacklist, cfg.hostname, row.page)
                        + (if cfg.resultCount == 1 then 1 else 0))]
  {
    TrackerSingleton(cfg, row);
    ContentSingleton(cfg, row.(rank := row.rank + 2 * TrackerUrls(cfg.blacklist, cfg.hostname, row.page)));
  }

  /** Both passes change the rank of a row and nothing else. */
  lemma PenalisedOnlyRanks(cfg: Config, rows: seq<Row>, i: int)
    requires 0 <= i < |rows|
    ensures |Penalised(cfg, rows)| == |rows|
    ensures Penalised(cfg, rows)[i] == rows[i].(rank := Penalised(cfg, rows)[i].rank)
  {
  }

  /** Any rearrangement of the penalised rows has the links of the input and as many rows. */
  lemma PermutationKeepsLinks(cfg: Config, rows: seq<Row>, out: seq<Row>)
    requires multiset(out) == multiset(Penalised(cfg, rows))
    ensures |out| == |rows|
    ensures Links(out) == Links(rows)
  {
    var p := Penalised(cfg, rows);
    assert |p| == |rows| by {
      if |rows| > 0 { PenalisedOnlyRanks(cfg, rows, 0); }
    }
    assert |out| == |multiset(out)| == |p|;
    assert forall r :: r in out <==> r in p by {
      forall r ensures r in out <==> r in p {
        assert r in out <==> r in multiset(out);
        assert r in p <==> r in multiset(p);
      }
    }
    SameLinks(cfg, rows, p);
  }

  lemma SameLinks(cfg: Config, rows: seq<Row>, p: seq<Row>)
    requires p == Penalised(cfg, rows) && |p| == |rows|
    ensures Links(p) == Links(rows)
  {
    forall l | l in Links(p)
      ensures l in Links(rows)
    {
      var i :| 0 <= i < |p| && p[i].link == l;
      PenalisedOnlyRanks(cfg, rows, i);
      assert rows[i] in rows;
    }
    forall l | l in Links(rows)
      ensures l in Links(p)
    {
      var i :| 0 <= i < |rows| && rows[i].link == l;
      PenalisedOnlyRanks(cfg, rows, i);
      assert p[i] in p;
    }
  }

  /** The content pass on one row, as it is defined. */
  lemma ContentPassAt(cfg: Config, rows: seq<Row>, i: int)
    requires 0 <= i < |rows|
    ensures |ContentPass(cfg, rows)| == |rows|
    ensures var words := WordCounts(rows);
            ContentPass(cfg, rows)[i]
              == rows[i].(rank := rows[i].rank + ContentPenalty(words[i], Median2(words), cfg.resultCount))
  {
  }

  /** Sorting two penalised rows of different rank puts the smaller first. */
  lemma SortedPair(p: seq<Row>, out: seq<Row>)
    requires |p| == 2 && p[0].rank < p[1].rank
    requires SortedBy(out, RankOf) && multiset(out) == multiset(p)
    ensures |out| == 2 && out[0] == p[0] && out[1] == p[1]
  {
    assert p == [p[0], p[1]];
    OrderOfTwo(out, p[0], p[1], RankOf);
  }

  /**
   * Two rows with equal ranks and equal text, where only the second has a
   * reference, and that reference is a tracker: the median count is 1/2, so
   * the second row gets the sentinel twice and comes last.
   */
  lemma TrackerScenario(cfg: Config, a: Row, b: Row, out: seq<Row>)
    requires a.page.scriptSrcs == [] && a.page.hrefs == []
    requires |b.page.scriptSrcs| == 1 && b.page.hrefs == []
    requires IsTracker(cfg.blacklist, cfg.hostname(b.page.scriptSrcs[0]))
    requires a.page.text == b.page.text && a.rank == b.rank
    requires cfg.resultCount > 0
    requires SortedBy(out, RankOf) && multiset(out) == multiset(Penalised(cfg, [a, b]))
    ensures |out| == 2 && out[0].link == a.link && out[1].link == b.link
  {
    var t := [a, b.(rank := b.rank + 2 * cfg.resultCount)];
    TrackerScenarioPass(cfg, a, b);
    var w := WordCount(a.page.text);
    assert WordCounts(t) == [w, w];
    EqualWordsNoContentPenalty(cfg, t);
    PenalisedOnlyRanks(cfg, [a, b], 0);
    PenalisedOnlyRanks(cfg, [a, b], 1);
    SortedPair(Penalised(cfg, [a, b]), out);
  }

  lemma TrackerScenarioPass(cfg: Config, a: Row, b: Row)
    requires a.page.scriptSrcs == [] && a.page.hrefs == []
    requires |b.page.scriptSrcs| == 1 && b.page.hrefs == []
    requires IsTracker(cfg.blacklist, cfg.hostname(b.page.scriptSrcs[0]))
    ensures Median2(TrackerCounts(cfg, [a, b])) == 1
    ensures TrackerPass(cfg, [a, b]) == [a, b.(rank := b.rank + 2 * cfg.resultCount)]
  {
    var rows := [a, b];
    TrackerScenarioCounts(cfg, a, b);
    MedianPair(0, 1);
    TrackerPassEffect(cfg, rows, 0);
    TrackerPassEffect(cfg, rows, 1);
  }

  lemma TrackerScenarioCounts(cfg: Config, a: Row, b: Row)
    requires a.page.scriptSrcs == [] && a.page.hrefs == []
    requires |b.page.scriptSrcs| == 1 && b.page.hrefs == []
    requires IsTracker(cfg.blacklist, cfg.hostname(b.page.scriptSrcs[0]))
    ensures TrackerUrls(cfg.blacklist, cfg.hostname, a.page) == 0
    ensures TrackerUrls(cfg.blacklist, cfg.hostname, b.page) == 1
    ensures TrackerCounts(cfg, [a, b]) == [0, 1]
  {
    assert a.page.scriptSrcs + a.page.hrefs == [];
    assert b.page.scriptSrcs + b.page.hrefs == [b.page.scriptSrcs[0]];
  }

  /** Two rows with the same word count get the same content penalty. */
  lemma EqualWordsNoContentPenalty(cfg: Config, t: seq<Row>)
    requires |t| == 2 && WordCounts(t)[0] == WordCounts(t)[1]
    ensures |ContentPass(cfg, t)| == 2
    ensures ContentPass(cfg, t)[1].rank - ContentPass(cfg, t)[0].rank == t[1].rank - t[0].rank
  {
    var w := WordCounts(t)[0];
    assert WordCounts(t) == [w, w];
    MedianPair(w, w);
    ContentPassAt(cfg, t, 0);
    ContentPassAt(cfg, t, 1);
  }

  /**
   * Two rows with equal ranks, no references, and 100 and 10 words: the
   * median is 55, the 10-word page is thin and comes last.
   */
  lemma ContentScenario(cfg: Config, a: Row, b: Row, out: seq<Row>)
    requires a.page.scriptSrcs == [] && a.page.hrefs == []
    requires b.page.scriptSrcs == [] && b.page.hrefs == []
    requires WordCount(a.page.text) == 100 && WordCount(b.page.text) == 10
    requires a.rank == b.rank
    requires cfg.resultCount > 0
    requires SortedBy(out, RankOf) && multiset(out) == multiset(Penalised(cfg, [a, b]))
    ensures |out| == 2 && out[0].link == a.link && out[1].link == b.link
  {
    ContentScenarioTrackerPass(cfg, a, b);
    ContentScenarioPass(cfg, a, b);
    PenalisedOnlyRanks(cfg, [a, b], 0);
    PenalisedOnlyRanks(cfg, [a, b], 1);
    SortedPair(Penalised(cfg, [a, b]), out);
  }

  /** Pages without references: both counts and the median count are 0, and nothing changes. */
  lemma ContentScenarioTrackerPass(cfg: Config, a: Row, b: Row)
    requires a.page.scriptSrcs == [] && a.page.hrefs == []
    requires b.page.scriptSrcs == [] && b.page.hrefs == []
    ensures Median2(TrackerCounts(cfg, [a, b])) == 0
    ensures TrackerPass(cfg, [a, b]) == [a, b]
  {
    var rows := [a, b];
    NoReferencesCounts(cfg, a, b);
    MedianPair(0, 0);
    TrackerPassEffect(cfg, rows, 0);
    TrackerPassEffect(cfg, rows, 1);
  }

  lemma NoReferencesCounts(cfg: Config, a: Row, b: Row)
    requires a.page.scriptSrcs == [] && a.page.hrefs == []
    requires b.page.scriptSrcs == [] && b.page.hrefs == []
    ensures TrackerCounts(cfg, [a, b]) == [0, 0]
  {
    assert a.page.scriptSrcs + a.page.hrefs == [];
    assert b.page.scriptSrcs + b.page.hrefs == [];
  }

  /** With 100 and 10 words twice the median is 110, that is, the median is 55. */
  lemma ContentScenarioWords(a: Row, b: Row)
    requires WordCount(a.page.text) == 100 && WordCount(b.page.text) == 10
    ensures WordCounts([a, b]) == [100, 10]
    ensures Median2(WordCounts([a, b])) == 110
  {
    assert WordCounts([a, b]) == [100, 10];
    MedianPair(100, 10);
  }

  /** Only the 10-word row is thin, so only it gets the sentinel. */
  lemma ContentScenarioPass(cfg: Config, a: Row, b: Row)
    requires WordCount(a.page.text) == 100 && WordCount(b.page.text) == 10
    requires cfg.resultCount > 0
    ensures Median2(WordCounts([a, b])) == 110
    ensures ContentPass(cfg, [a, b]) == [a, b.(rank := b.rank + cfg.resultCount)]
  {
    var rows := [a, b];
    ContentScenarioWords(a, b);
    assert ContentPenalty(100, 110, cfg.resultCount) == 0 by {
      assert 2 * 100 != cfg.resultCount * 110 by {
        if cfg.resultCount <= 1 { } else { }
      }
    }
    assert ContentPenalty(10, 110, cfg.resultCount) == cfg.resultCount;
    ContentPassAt(cfg, rows, 0);
    ContentPassAt(cfg, rows, 1);
  }

  /** The tracker pass, given the rank column it produces row by row. */
  lemma TrackerPassIs(cfg: Config, rows: seq<Row>, out: seq<Row>)
    requires |out| == |rows| > 0
    requires var counts := TrackerCounts(cfg, rows);
             forall k :: 0 <= k < |rows| ==>
               out[k] == rows[k].(rank := rows[k].rank + 2 * EffectiveCount(counts[k], Median2(counts), cfg.resultCount))
    ensures out == TrackerPass(cfg, rows)
  {
  }

  /** The content pass, given the rank column it produces row by row. */
  lemma ContentPassIs(cfg: Config, rows: seq<Row>, out: seq<Row>)
    requires |out| == |rows| > 0
    requires var words := WordCounts(rows);
             forall k :: 0 <= k < |rows| ==>
               out[k] == rows[k].(rank := rows[k].rank + ContentPenalty(words[k], Median2(words), cfg.resultCount))
    ensures out == ContentPass(cfg, rows)
  {
  }

  // ---------------------------------------------------------------------
  // Column operations on the data frame
  // ---------------------------------------------------------------------

  /** A new column with the tracker count of every row. */
  method TrackerColumn(cfg: Config, rows: array<Row>) returns (counts: array<int>)
    ensures fresh(counts)
    ensures counts[..] == TrackerCounts(cfg, rows[..])
  {
    counts := new int[rows.Length];
    for i := 0 to rows.Length
      modifies counts
      invariant forall k :: 0 <= k < i ==> counts[k] == TrackerUrls(cfg.blacklist, cfg.hostname, rows[k].page)
    {
      counts[i] := TrackerUrls(cfg.blacklist, cfg.hostname, rows[i].page);
    }
  }

  /** A new column with the word count of every row. */
  method WordColumn(rows: array<Row>) returns (words: array<int>)
    ensures fresh(words)
    ensures words[..] == WordCounts(rows[..])
  {
    words := new int[rows.Length];
    for i := 0 to rows.Length
      modifies words
      invariant forall k :: 0 <= k < i ==> words[k] == WordCount(rows[k].page.text)
    {
      words[i] := WordCount(rows[i].page.text);
    }
  }

  /** Replaces every count strictly above the median by the sentinel. */
  method ReplaceAboveMedian(counts: array<int>, med2: int, resultCount: int)
    modifies counts
    ensures forall k :: 0 <= k < counts.Length ==> counts[k] == EffectiveCount(old(counts[k]), med2, resultCount)
  {
    for i := 0 to counts.Length
      invariant forall k :: 0 <= k < i ==> counts[k] == EffectiveCount(old(counts[k]), med2, resultCount)
      invariant forall k :: i <= k < counts.Length ==> counts[k] == old(counts[k])
    {
      if 2 * counts[i] > med2 {
        counts[i] := resultCount;
      }
    }
  }

  /** `words / median`, as a new column. */
  method Divide(words: array<int>, med2: int) returns (values: array<Ratio>)
    ensures fresh(values) && values.Length == words.Length
    ensures forall k :: 0 <= k < words.Length ==> values[k] == Normalise(words[k], med2)
  {
    values := new Ratio[words.Length];
    for i := 0 to words.Length
      modifies values
      invariant forall k :: 0 <= k < i ==> values[k] == Normalise(words[k], med2)
    {
      values[i] := Normalise(words[i], med2);
    }
  }

  /** Replaces every quotient of at most one half by the sentinel. */
  method ReplaceAtMostHalf(values: array<Ratio>, resultCount: int)
    modifies values
    ensures forall k :: 0 <= k < values.Length ==> values[k] == Threshold(old(values[k]), resultCount)
  {
    for i := 0 to values.Length
      invariant forall k :: 0 <= k < i ==> values[k] == Threshold(old(values[k]), resultCount)
      invariant forall k :: i <= k < values.Length ==> values[k] == old(values[k])
    {
      if AtMostHalf(values[i]) {
        values[i] := Ratio(resultCount, 1);
      }
    }
  }

  /** Replaces every value other than the sentinel by 0. */
  method ZeroOthers(values: array<Ratio>, resultCount: int)
    modifies values
    ensures forall k :: 0 <= k < values.Length ==> values[k] == KeepSentinel(old(values[k]), resultCount)
  {
    for i := 0 to values.Length
      invariant forall k :: 0 <= k < i ==> values[k] == KeepSentinel(old(values[k]), resultCount)
      invariant forall k :: i <= k < values.Length ==> values[k] == old(values[k])
    {
      if !EqualsInt(values[i], resultCount) {
        values[i] := Ratio(0, 1);
      }
    }
  }

  /** Adds the increment column to the rank column. */
  method AddToRank(rows: array<Row>, inc: seq<int>)
    requires |inc| == rows.Length
    modifies rows
    ensures forall k :: 0 <= k < rows.Length ==> rows[k] == old(rows[k]).(rank := old(rows[k]).rank + inc[k])
  {
    for i := 0 to rows.Length
      invariant forall k :: 0 <= k < i ==> rows[k] == old(rows[k]).(rank := old(rows[k]).rank + inc[k])
      invariant forall k :: i <= k < rows.Length ==> rows[k] == old(rows[k])
    {
      rows[i] := rows[i].(rank := rows[i].rank + inc[i]);
    }
  }

  // ---------------------------------------------------------------------
  // The filter object
  // ---------------------------------------------------------------------

  /**
   * `Filter` holds its own copy of the candidate rows and changes the ranks
   * of that copy in place.
   */
  class Filter {
    const cfg: Config
    var filtered: array<Row>

    /** The filter works on its own copy of the candidate rows. */
    constructor (results: array<Row>, cfg: Config)
      ensures this.cfg == cfg
      ensures fresh(filtered) && filtered[..] == results[..]
    {
      this.cfg := cfg;
      filtered := new Row[results.Length](i reads results requires 0 <= i < results.Length => results[i]);
    }

    /** `tracker_filter`. */
    method TrackerFilter()
      modifies filtered
      ensures filtered[..] == TrackerPass(cfg, old(filtered[..]))
    {
      ghost var rows := filtered[..];
      var n := filtered.Length;
      var counts := TrackerColumn(cfg, filtered);
      if n > 0 {
        var med2 := Median2(counts[..]);
        ReplaceAboveMedian(counts, med2, cfg.resultCount);
      }
      AddToRank(filtered, seq(n, k reads counts requires 0 <= k < n => 2 * counts[k]));
      if n > 0 {
        TrackerPassIs(cfg, rows, filtered[..]);
      }
    }

    /** `content_filter`. */
    method ContentFilter()
      modifies filtered
      ensures filtered[..] == ContentPass(cfg, old(filtered[..]))
    {
      ghost var rows := filtered[..];
      var n := filtered.Length;
      var words := WordColumn(filtered);
      // On an empty frame the median is undefined and every step below changes nothing.
      if n > 0 {
        var med2 := Median2(words[..]);
        WordMedianPositive(rows);
        var values := Divide(words, med2);
        ReplaceAtMostHalf(values, cfg.resultCount);
        ZeroOthers(values, cfg.resultCount);
        forall k | 0 <= k < n
          ensures values[k].den > 0
          ensures Value(values[k]) == ContentPenalty(words[k], med2, cfg.resultCount)
        {
          StagesAgree(words[k], med2, cfg.resultCount);
        }
        AddToRank(filtered, seq(n, k reads values requires 0 <= k < n && values[k].den > 0 => Value(values[k])));
        ContentPassIs(cfg, rows, filtered[..]);
      }
    }

    /**
     * `filter`: both passes, then the rows in ascending rank. The result is
     * a new array holding a sorted permutation of the penalised rows, with
     * the links of the rows it started from.
     */
    method Filter() returns (result: array<Row>)
      modifies this, filtered
      ensures result == filtered && fresh(result)
      ensures SortedBy(result[..], RankOf)
      ensures multiset(result[..]) == multiset(Penalised(cfg, old(filtered[..])))
      ensures result.Length == old(filtered.Length)
      ensures Links(result[..]) == Links(old(filtered[..]))
    {
      ghost var rows := filtered[..];
      TrackerFilter();
      ContentFilter();
      var penalised := filtered[..];
      assert penalised == Penalised(cfg, rows);
      // ascending rank (zero-search-engine/filter.py:137)
      var sorted := SortBy(penalised, RankOf);
      filtered := new Row[|sorted|](i requires 0 <= i < |sorted| => sorted[i]);
      // the ranks are integers, so rounding them (line 138) keeps them
      result := filtered;
      assert result[..] == sorted;
      PermutationKeepsLinks(cfg, rows, sorted);
    }
  }

  /**
   * The caller's use of the filter: build it on the candidate rows and run
   * it. The caller's rows are left as they were.
   */
  method FilterResults(results: array<Row>, cfg: Config) returns (ranked: array<Row>)
    ensures results[..] == old(results[..])
    ensures fresh(ranked)
    ensures SortedBy(ranked[..], RankOf)
    ensures multiset(ranked[..]) == multiset(Penalised(cfg, results[..]))
  {
    var f := new Filter(results, cfg);
    ranked := f.Filter();
  }
}
