/**
 * The two per-page signals of the filter: how many outbound references of
 * a page point at a blacklisted host (`tracker_urls`) and how many pieces
 * its text splits into on a single space (the word count of
 * `content_filter`).
 *
 * The HTML parser is not modelled. A page is given by what the filter reads
 * from it: the `src` of every `<script src>` tag, the `href` of every
 * `<a href>` tag, and its extracted text. Hostname extraction is a
 * parameter: a function that yields `None` where `urlparse(...).hostname`
 * is `None`.
 */
module Pages {
  import opened Wrappers

  datatype Page = Page(scriptSrcs: seq<string>, hrefs: seq<string>, text: string)

  /** A reference is a tracker when it has a hostname and the hostname is blacklisted. */
  predicate IsTracker(blacklist: set<string>, host: Option<string>)
    ensures host == None ==> !IsTracker(blacklist, host)
    ensures blacklist == {} ==> !IsTracker(blacklist, host)
  {
    host.Some? && host.value in blacklist
  }

  /** The number of references in `refs` that are trackers. */
  function CountTrackers(blacklist: set<string>, hostname: string -> Option<string>, refs: seq<string>): (n: nat)
    ensures n <= |refs|
  {
    if refs == [] then 0
    else (if IsTracker(blacklist, hostname(refs[0])) then 1 else 0)
         + CountTrackers(blacklist, hostname, refs[1..])
  }

  /** `tracker_urls`: the tracker references among the script sources followed by the hrefs. */
  function TrackerUrls(blacklist: set<string>, hostname: string -> Option<string>, page: Page): (n: nat)
    ensures n <= |page.scriptSrcs| + |page.hrefs|
  {
    CountTrackers(blacklist, hostname, page.scriptSrcs + page.hrefs)
  }

  lemma {:induction false} CountTrackersAppend(blacklist: set<string>, hostname: string -> Option<string>, a: seq<string>, b: seq<string>)
    ensures CountTrackers(blacklist, hostname, a + b)
         == CountTrackers(blacklist, hostname, a) + CountTrackers(blacklist, hostname, b)
  {
    if a == [] {
      assert a + b == b;
    } else {
      assert (a + b)[1..] == a[1..] + b;
      CountTrackersAppend(blacklist, hostname, a[1..], b);
    }
  }

  /** Script sources and hrefs contribute independently. */
  lemma TrackerUrlsSplits(blacklist: set<string>, hostname: string -> Option<string>, page: Page)
    ensures TrackerUrls(blacklist, hostname, page)
         == CountTrackers(blacklist, hostname, page.scriptSrcs) + CountTrackers(blacklist, hostname, page.hrefs)
  {
    CountTrackersAppend(blacklist, hostname, page.scriptSrcs, page.hrefs);
  }

  /** No tracker is counted exactly when no reference is a tracker. */
  lemma {:induction false} CountTrackersZero(blacklist: set<string>, hostname: string -> Option<string>, refs: seq<string>)
    ensures CountTrackers(blacklist, hostname, refs) == 0
        <==> forall k :: 0 <= k < |refs| ==> !IsTracker(blacklist, hostname(refs[k]))
  {
    if refs != [] {
      CountTrackersZero(blacklist, hostname, refs[1..]);
      assert forall k :: 1 <= k < |refs| ==> refs[k] == refs[1..][k - 1];
    }
  }

  /** Every reference is counted exactly when every reference is a tracker. */
  lemma {:induction false} CountTrackersAll(blacklist: set<string>, hostname: string -> Option<string>, refs: seq<string>)
    ensures CountTrackers(blacklist, hostname, refs) == |refs|
        <==> forall k :: 0 <= k < |refs| ==> IsTracker(blacklist, hostname(refs[k]))
  {
    if refs != [] {
      CountTrackersAll(blacklist, hostname, refs[1..]);
      assert forall k :: 1 <= k < |refs| ==> refs[k] == refs[1..][k - 1];
    }
  }

  /**
   * A reference without a hostname is never counted: removing it from
   * anywhere in the list leaves the count unchanged.
   */
  lemma UnhostedIgnored(blacklist: set<string>, hostname: string -> Option<string>, a: seq<string>, r: string, b: seq<string>)
    requires hostname(r) == None
    ensures CountTrackers(blacklist, hostname, a + [r] + b) == CountTrackers(blacklist, hostname, a + b)
  {
    CountTrackersAppend(blacklist, hostname, a + [r], b);
    CountTrackersAppend(blacklist, hostname, a, [r]);
    CountTrackersAppend(blacklist, hostname, a, b);
  }

  /** Splitting on a single space, as Python's `str.split` with that separator: empty pieces are kept. */
  function Split(s: string): (pieces: seq<string>)
    ensures |pieces| >= 1
    ensures forall k :: 0 <= k < |pieces| ==> ' ' !in pieces[k]
  {
    if s == [] then
      [""]
    else
      var rest := Split(s[1..]);
      if s[0] == ' ' then [""] + rest
      else [[s[0]] + rest[0]] + rest[1..]
  }

  /** Joining a non-empty list of pieces with single spaces, as Python's `str.join` does on such a list. */
  function Join(pieces: seq<string>): string
    requires |pieces| >= 1
  {
    if |pieces| == 1 then pieces[0] else pieces[0] + " " + Join(pieces[1..])
  }

  /** Joining the pieces again gives back the text. */
  lemma {:induction false} JoinSplit(s: string)
    ensures Join(Split(s)) == s
  {
    if s != [] {
      var rest := Split(s[1..]);
      JoinSplit(s[1..]);
      if s[0] == ' ' {
        assert Split(s) == [""] + rest;
        assert ([""] + rest)[1..] == rest;
      } else if |rest| == 1 {
        assert Split(s) == [[s[0]] + rest[0]];
      } else {
        assert Split(s)[1..] == rest[1..];
        assert Join(rest) == rest[0] + " " + Join(rest[1..]);
      }
    }
  }

  /** Splitting a join of space-free pieces gives back the pieces. */
  lemma {:induction false} SplitJoin(pieces: seq<string>)
    requires |pieces| >= 1
    requires forall k :: 0 <= k < |pieces| ==> ' ' !in pieces[k]
    ensures Split(Join(pieces)) == pieces
  {
    if |pieces| == 1 {
      SplitWord(pieces[0], []);
      assert pieces[0] + [] == pieces[0];
    } else {
      SplitJoin(pieces[1..]);
      SplitWord(pieces[0], " " + Join(pieces[1..]));
      assert pieces[0] + " " + Join(pieces[1..]) == pieces[0] + (" " + Join(pieces[1..]));
      assert (" " + Join(pieces[1..]))[1..] == Join(pieces[1..]);
      assert [pieces[0]] + pieces[1..] == pieces;
    }
  }

  /** A space-free prefix is glued to the first piece of what follows it. */
  lemma {:induction false} SplitWord(w: string, t: string)
    requires ' ' !in w
    requires t == [] || t[0] == ' '
    ensures Split(w + t) == (if t == [] then [w] else [w] + Split(t[1..]))
  {
    if w == [] {
      assert w + t == t;
    } else {
      assert (w + t)[1..] == w[1..] + t;
      SplitWord(w[1..], t);
      assert [w[0]] + w[1..] == w;
    }
  }

  /** The number of space characters in `s`. */
  function Spaces(s: string): nat
  {
    if s == [] then 0 else (if s[0] == ' ' then 1 else 0) + Spaces(s[1..])
  }

  /** The number of pieces of the text, the word count of `content_filter`. */
  function WordCount(text: string): (n: nat)
    ensures n >= 1
  {
    |Split(text)|
  }

  /** The word count is one more than the number of spaces, so it is never zero. */
  lemma {:induction false} WordCountIsSpacesPlusOne(text: string)
    ensures WordCount(text) == Spaces(text) + 1
  {
    if text != [] {
      WordCountIsSpacesPlusOne(text[1..]);
    }
  }
}
