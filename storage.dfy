/**
 * The result store: one SQLite table `results` whose rows are keyed
 * uniquely by (query, link), modelled as a sequence of records in rowid
 * order.
 */
module Storage {
  import opened Wrappers
  import opened Sorting

  /** The seven values an insert supplies, in column order. */
  datatype Values = Values(
    query: string, rank: int, link: string, title: string,
    snippet: string, html: string, created: string)

  /** One stored row; `relevance` is NULL until an update sets it. */
  datatype Record = Record(
    id: int, query: string, rank: int, link: string, title: string,
    snippet: string, html: string, created: string, relevance: Option<int>)

  function Key(r: Record): (string, string)
  {
    (r.query, r.link)
  }

  function RankOf(r: Record): int
  {
    r.rank
  }

  /** Some row of `rs` carries the key (q, l). */
  predicate HasKey(rs: seq<Record>, q: string, l: string)
  {
    exists k :: 0 <= k < |rs| && Key(rs[k]) == (q, l)
  }

  /** The UNIQUE(query, link) constraint. */
  ghost predicate UniqueKeys(rs: seq<Record>)
  {
    forall i, j :: 0 <= i < j < |rs| ==> Key(rs[i]) != Key(rs[j])
  }

  /** The INTEGER PRIMARY KEY constraint. */
  ghost predicate UniqueIds(rs: seq<Record>)
  {
    forall i, j :: 0 <= i < j < |rs| ==> rs[i].id != rs[j].id
  }

  ghost predicate TableValid(rs: seq<Record>)
  {
    UniqueKeys(rs) && UniqueIds(rs)
  }

  /**
   * The rowid SQLite gives a row inserted without one: one more than the
   * largest rowid in the table, or 1 when the table is empty.
   */
  function NextId(rs: seq<Record>): (id: int)
    ensures forall k :: 0 <= k < |rs| ==> rs[k].id < id
    ensures rs == [] ==> id == 1
    ensures rs != [] ==> exists k :: 0 <= k < |rs| && id == rs[k].id + 1
  {
    if rs == [] then 1
    else
      var p := rs[..|rs| - 1];
      var last := rs[|rs| - 1].id + 1;
      if p == [] then last
      else
        var before := NextId(p);
        assert forall k :: 0 <= k < |p| ==> rs[k] == p[k];
        if before < last then last else before
  }

  /** The row an insert of `v` adds with rowid `id`. */
  function NewRecord(id: int, v: Values): (r: Record)
    ensures r.id == id && Key(r) == (v.query, v.link) && r.relevance == None
  {
    Record(id, v.query, v.rank, v.link, v.title, v.snippet, v.html, v.created, None)
  }

  /** The table after `insert_row(v)`: the integrity error of a duplicate key is swallowed. */
  function Inserted(rs: seq<Record>, v: Values): (r: seq<Record>)
    ensures |rs| <= |r| <= |rs| + 1 && r[..|rs|] == rs
    ensures HasKey(r, v.query, v.link)
  {
    if HasKey(rs, v.query, v.link) then rs
    else
      var r := rs + [NewRecord(NextId(rs), v)];
      assert Key(r[|rs|]) == (v.query, v.link);
      r
  }

  /** The table after `update_relevance(q, l, x)`. */
  function Updated(rs: seq<Record>, q: string, l: string, x: int): (r: seq<Record>)
    ensures |r| == |rs|
    ensures forall k :: 0 <= k < |rs| ==> Key(r[k]) == Key(rs[k])
  {
    seq(|rs|, k requires 0 <= k < |rs| =>
      if Key(rs[k]) == (q, l) then rs[k].(relevance := Some(x)) else rs[k])
  }

  /** The rows whose query is `q`, in table order. */
  function Select(rs: seq<Record>, q: string): (r: seq<Record>)
    ensures |r| <= |rs|
    ensures forall k :: 0 <= k < |r| ==> r[k].query == q
  {
    if rs == [] then []
    else
      var last := rs[|rs| - 1];
      Select(rs[..|rs| - 1], q) + (if last.query == q then [last] else [])
  }

  // ----- insert_row -----

  /** Inserting a new key appends exactly one row with the given values and no relevance. */
  lemma InsertNew(rs: seq<Record>, v: Values)
    requires !HasKey(rs, v.query, v.link)
    ensures var out := Inserted(rs, v);
            |out| == |rs| + 1 && out[..|rs|] == rs &&
            var r := out[|rs|];
            r.query == v.query && r.rank == v.rank && r.link == v.link &&
            r.title == v.title && r.snippet == v.snippet && r.html == v.html &&
            r.created == v.created && r.relevance == None &&
            forall k :: 0 <= k < |rs| ==> rs[k].id < r.id
  {
    assert (rs + [NewRecord(NextId(rs), v)])[..|rs|] == rs;
  }

  /** Inserting an existing key changes nothing. */
  lemma InsertExisting(rs: seq<Record>, v: Values, k: int)
    requires 0 <= k < |rs| && Key(rs[k]) == (v.query, v.link)
    ensures Inserted(rs, v) == rs
  {
  }

  /** After an insert the key is present. */
  lemma InsertedHasKey(rs: seq<Record>, v: Values)
    ensures HasKey(Inserted(rs, v), v.query, v.link)
  {
    if !HasKey(rs, v.query, v.link) {
      var out := Inserted(rs, v);
      assert Key(out[|rs|]) == (v.query, v.link);
    }
  }

  /**
   * The first write wins: a second insert under the same key, whatever its
   * other values, leaves the table as the first insert left it.
   */
  lemma InsertFirstWins(rs: seq<Record>, v: Values, w: Values)
    requires (w.query, w.link) == (v.query, v.link)
    ensures Inserted(Inserted(rs, v), w) == Inserted(rs, v)
  {
    InsertedHasKey(rs, v);
  }

  /** Inserts keep both uniqueness constraints. */
  lemma InsertKeepsValid(rs: seq<Record>, v: Values)
    requires TableValid(rs)
    ensures TableValid(Inserted(rs, v))
  {
    if !HasKey(rs, v.query, v.link) {
      var out := Inserted(rs, v);
      forall i, j | 0 <= i < j < |out|
        ensures Key(out[i]) != Key(out[j]) && out[i].id != out[j].id
      {
        if j == |rs| {
          assert out[i] == rs[i];
          assert out[j].id == NextId(rs);
        } else {
          assert out[i] == rs[i] && out[j] == rs[j];
        }
      }
    }
  }

  /** A later query sees an inserted row under its own query and only there. */
  lemma SelectAfterInsert(rs: seq<Record>, v: Values, q: string)
    requires !HasKey(rs, v.query, v.link)
    ensures Select(Inserted(rs, v), q)
              == Select(rs, q) + (if v.query == q then [NewRecord(NextId(rs), v)] else [])
  {
    var out := Inserted(rs, v);
    assert out[..|out| - 1] == rs;
  }

  // ----- update_relevance -----

  /** The matching row's relevance becomes `x`; nothing else in any row changes. */
  lemma UpdateEffect(rs: seq<Record>, q: string, l: string, x: int)
    ensures var out := Updated(rs, q, l, x);
            |out| == |rs| &&
            forall k :: 0 <= k < |rs| ==>
              out[k].(relevance := rs[k].relevance) == rs[k] &&
              (Key(rs[k]) == (q, l) ==> out[k].relevance == Some(x)) &&
              (Key(rs[k]) != (q, l) ==> out[k] == rs[k])
  {
  }

  /** Without a row for the key an update changes nothing (and adds no row). */
  lemma UpdateMissing(rs: seq<Record>, q: string, l: string, x: int)
    requires !HasKey(rs, q, l)
    ensures Updated(rs, q, l, x) == rs
  {
    var out := Updated(rs, q, l, x);
    forall k | 0 <= k < |rs| ensures out[k] == rs[k] {
      assert Key(rs[k]) != (q, l);
    }
  }

  /** Updates overwrite: of two successive updates on one key the second wins. */
  lemma UpdateOverwrites(rs: seq<Record>, q: string, l: string, x: int, y: int)
    ensures Updated(Updated(rs, q, l, x), q, l, y) == Updated(rs, q, l, y)
  {
  }

  /** Updates keep both uniqueness constraints and the set of keys. */
  lemma UpdateKeepsValid(rs: seq<Record>, q: string, l: string, x: int)
    requires TableValid(rs)
    ensures TableValid(Updated(rs, q, l, x))
    ensures forall k :: 0 <= k < |rs| ==> Key(Updated(rs, q, l, x)[k]) == Key(rs[k])
  {
  }

  /** A freshly inserted row, once updated, carries the new relevance. */
  lemma InsertThenUpdate(rs: seq<Record>, v: Values, x: int)
    requires TableValid(rs) && !HasKey(rs, v.query, v.link)
    ensures var out := Updated(Inserted(rs, v), v.query, v.link, x);
            out[..|rs|] == rs && out[|rs|] == NewRecord(NextId(rs), v).(relevance := Some(x))
  {
    var mid := Inserted(rs, v);
    var out := Updated(mid, v.query, v.link, x);
    forall k | 0 <= k < |rs| ensures out[k] == rs[k] {
      assert mid[k] == rs[k];
      assert Key(rs[k]) != (v.query, v.link);
    }
  }

  // ----- query_results -----

  /** A row is selected exactly when it is stored under query `q`. */
  lemma {:induction false} SelectMembers(rs: seq<Record>, q: string, r: Record)
    ensures r in Select(rs, q) <==> r in rs && r.query == q
  {
    if rs != [] {
      var p := rs[..|rs| - 1];
      SelectMembers(p, q, r);
      assert rs == p + [rs[|rs| - 1]];
    }
  }

  /** No row is selected exactly when no row is stored under `q`. */
  lemma SelectEmpty(rs: seq<Record>, q: string)
    ensures Select(rs, q) == [] <==> forall k :: 0 <= k < |rs| ==> rs[k].query != q
  {
    if Select(rs, q) == [] {
      forall k | 0 <= k < |rs| ensures rs[k].query != q {
        SelectMembers(rs, q, rs[k]);
      }
    } else {
      var r := Select(rs, q)[0];
      SelectMembers(rs, q, r);
    }
  }

  /** The rows of one query, read from a valid table, have distinct links. */
  lemma {:induction false} SelectDistinctLinks(rs: seq<Record>, q: string)
    requires UniqueKeys(rs)
    ensures var s := Select(rs, q);
            forall i, j :: 0 <= i < j < |s| ==> s[i].link != s[j].link
  {
    if rs != [] {
      var p := rs[..|rs| - 1];
      var last := rs[|rs| - 1];
      assert UniqueKeys(p) by {
        forall i, j | 0 <= i < j < |p| ensures Key(p[i]) != Key(p[j]) {
          assert p[i] == rs[i] && p[j] == rs[j];
        }
      }
      SelectDistinctLinks(p, q);
      if last.query == q {
        var s := Select(rs, q);
        var sp := Select(p, q);
        assert s == sp + [last];
        forall i | 0 <= i < |sp| ensures sp[i].link != last.link {
          SelectMembers(p, q, sp[i]);
          var k :| 0 <= k < |p| && p[k] == sp[i];
          assert rs[k] == p[k];
          assert Key(rs[k]) != Key(rs[|rs| - 1]);
        }
      }
    }
  }

  /** No two rows of `s` share a link. */
  ghost predicate DistinctLinks(s: seq<Record>)
  {
    forall i, j :: 0 <= i < j < |s| ==> s[i].link != s[j].link
  }

  /** Rows with distinct links are each stored at most once. */
  lemma {:induction false} DistinctLinksOnce(s: seq<Record>, x: Record)
    requires DistinctLinks(s)
    ensures multiset(s)[x] <= 1
  {
    if s != [] {
      var p := s[..|s| - 1];
      assert s == p + [s[|s| - 1]];
      assert DistinctLinks(p) by {
        forall i, j | 0 <= i < j < |p| ensures p[i].link != p[j].link {
          assert p[i] == s[i] && p[j] == s[j];
        }
      }
      DistinctLinksOnce(p, x);
      if x == s[|s| - 1] {
        forall k | 0 <= k < |p| ensures p[k] != x {
          assert s[k].link != s[|s| - 1].link;
        }
      }
    }
  }

  /** A row found at two positions is stored at least twice. */
  lemma TwiceStored(s: seq<Record>, i: int, j: int)
    requires 0 <= i < j < |s| && s[i] == s[j]
    ensures multiset(s)[s[i]] >= 2
  {
    assert s == s[..j] + [s[j]] + s[j + 1..];
    assert s[i] in s[..j];
  }

  /** Reordering rows keeps their links distinct. */
  lemma DistinctLinksPermutation(a: seq<Record>, b: seq<Record>)
    requires DistinctLinks(a) && multiset(a) == multiset(b)
    ensures DistinctLinks(b)
  {
    forall i, j | 0 <= i < j < |b| ensures b[i].link != b[j].link {
      if b[i] == b[j] {
        TwiceStored(b, i, j);
        DistinctLinksOnce(a, b[i]);
      } else {
        assert b[i] in multiset(a) && b[j] in multiset(a);
        var i' :| 0 <= i' < |a| && a[i'] == b[i];
        var j' :| 0 <= j' < |a| && a[j'] == b[j];
        if i' < j' {
          assert a[i'].link != a[j'].link;
        } else {
          assert a[j'].link != a[i'].link;
        }
      }
    }
  }

  /** The last row of `rs` is selected exactly when its query is `q`. */
  lemma SelectStep(rs: seq<Record>, i: int, q: string)
    requires 0 <= i < |rs|
    ensures Select(rs[..i + 1], q) == Select(rs[..i], q) + (if rs[i].query == q then [rs[i]] else [])
  {
    assert rs[..i + 1][..i] == rs[..i];
  }

  /** The table `results` as held by one connection to the database file. */
  class DBStorage {
    var rows: seq<Record>
    var hasTable: bool

    ghost predicate Valid()
      reads this
    {
      TableValid(rows) && (!hasTable ==> rows == [])
    }

    /** The table exists and satisfies its constraints. */
    ghost predicate Ready()
      reads this
    {
      Valid() && hasTable
    }

    /**
     * Opens the database file: `existing` is the table already stored in
     * it, if any; then creates the table when it is missing.
     */
    constructor (existing: Option<seq<Record>>)
      requires existing.Some? ==> TableValid(existing.value)
      ensures Ready()
      ensures rows == (if existing.Some? then existing.value else [])
    {
      rows := if existing.Some? then existing.value else [];
      hasTable := existing.Some?;
      new;
      SetupTables();
    }

    /** CREATE TABLE IF NOT EXISTS: a table already there keeps all its rows. */
    method SetupTables()
      requires Valid()
      modifies this
      ensures Ready()
      ensures rows == old(rows)
    {
      hasTable := true;
    }

    /** Inserts `v` unless a row with its (query, link) exists, in which case nothing changes. */
    method InsertRow(v: Values)
      requires Ready()
      modifies this
      ensures Ready()
      ensures rows == Inserted(old(rows), v)
    {
      var i := 0;
      var found := false;
      while i < |rows|
        invariant 0 <= i <= |rows|
        invariant found <==> exists k :: 0 <= k < i && Key(rows[k]) == (v.query, v.link)
        invariant !found ==> forall k :: 0 <= k < i ==> Key(rows[k]) != (v.query, v.link)
      {
        if Key(rows[i]) == (v.query, v.link) {
          found := true;
          break;
        }
        i := i + 1;
      }
      assert found <==> HasKey(rows, v.query, v.link);
      InsertKeepsValid(rows, v);
      if !found {
        rows := rows + [NewRecord(NextId(rows), v)];
      }
    }

    /** Sets the relevance of the row keyed (q, l), if there is one. */
    method UpdateRelevance(q: string, l: string, x: int)
      requires Ready()
      modifies this
      ensures Ready()
      ensures rows == Updated(old(rows), q, l, x)
    {
      ghost var before := rows;
      UpdateKeepsValid(rows, q, l, x);
      var i := 0;
      while i < |rows|
        invariant 0 <= i <= |rows| == |before|
        invariant forall k :: 0 <= k < i ==> rows[k] == Updated(before, q, l, x)[k]
        invariant forall k :: i <= k < |rows| ==> rows[k] == before[k]
        invariant hasTable
      {
        if Key(rows[i]) == (q, l) {
          rows := rows[i := rows[i].(relevance := Some(x))];
        }
        i := i + 1;
      }
      assert rows == Updated(before, q, l, x);
    }

    /** The rows stored under query `q`, in ascending rank order. */
    method QueryResults(q: string) returns (df: seq<Record>)
      requires Ready()
      ensures SortedBy(df, RankOf)
      ensures multiset(df) == multiset(Select(rows, q))
      ensures forall r :: r in df <==> r in rows && r.query == q
      ensures forall i, j :: 0 <= i < j < |df| ==> df[i].link != df[j].link
    {
      var matching := [];
      var i := 0;
      while i < |rows|
        invariant 0 <= i <= |rows|
        invariant matching == Select(rows[..i], q)
      {
        SelectStep(rows, i, q);
        if rows[i].query == q {
          matching := matching + [rows[i]];
        }
        i := i + 1;
      }
      assert rows[..|rows|] == rows;
      df := SortBy(matching, RankOf);
      forall r ensures r in df <==> r in rows && r.query == q {
        assert r in df <==> r in multiset(df);
        SelectMembers(rows, q, r);
      }
      SelectDistinctLinks(rows, q);
      DistinctLinksPermutation(Select(rows, q), df);
    }
  }
}
