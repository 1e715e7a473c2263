/**
 Following the cursors of ActivityQuery from the first page to the last, over a fixed day
 range, while the table may gain rows between any two pages.
 */
module ActivityWalk {
  import opened Wrappers
  import opened Calendar
  import opened ActivityQuery

  /** The cursor after some pages; there is none before the first page. */
  function NextCursor(pages: seq<Page>): string {
    if pages == [] then "" else pages[|pages| - 1].cursor
  }

  /** Page i is read from snapshot ts[i] with the cursor that page i - 1 handed out. */
  ghost predicate IsWalk(ts: seq<Table>, days: seq<string>, f: Filter, limit: int, pages: seq<Page>) {
    |ts| == |pages|
    && (pages != [] ==>
          var n := |pages| - 1;
          && IsWalk(ts[..n], days, f, limit, pages[..n])
          && Keyed(ts[n])
          && (n > 0 ==> NextCursor(pages[..n]) != "")
          && pages[n] == PageOf(ts[n], days, f, limit, NextCursor(pages[..n])))
  }

  ghost predicate Complete(pages: seq<Page>) {
    pages != [] && NextCursor(pages) == ""
  }

  ghost predicate Unchanging(ts: seq<Table>, t: Table) {
    forall i | 0 <= i < |ts| :: ts[i] == t
  }

  ghost predicate Growing(ts: seq<Table>) {
    forall i, j | 0 <= i <= j < |ts| :: Grows(ts[i], ts[j])
  }

  /** A list of days as _day_range_desc makes it: descending, and no day holds a bar. */
  ghost predicate DayList(days: seq<string>) {
    Descending(days) && forall i | 0 <= i < |days| :: '|' !in days[i]
  }

  /** Rows may have been inserted in any partition; none went away or changed. */
  ghost predicate Grows(t: Table, u: Table) {
    forall day, r | r in Partition(t, day) :: r in Partition(u, day)
  }

  function Items(pages: seq<Page>): seq<Row> {
    if pages == [] then [] else Items(pages[..|pages| - 1]) + pages[|pages| - 1].items
  }

  // --- cursors are positions in the list -----------------------------------------------

  lemma {:induction false} SelectTwice(rows: seq<Row>, f: Filter, c: Option<Key>)
    ensures Select(Select(rows, f, None), f, c) == Select(rows, f, c)
  {
    if rows != [] {
      var n := |rows| - 1;
      SelectTwice(rows[..n], f, c);
      SelectConcat(Select(rows[..n], f, None), if Wanted(rows[n], f, None) then [rows[n]] else [], f, c);
      assert [rows[n]][..0] == [];
    }
  }

  lemma {:induction false} SelectEverything(rows: seq<Row>, f: Filter, c: Option<Key>)
    requires forall k | 0 <= k < |rows| :: Wanted(rows[k], f, c)
    ensures Select(rows, f, c) == rows
  {
    if rows != [] { SelectEverything(rows[..|rows| - 1], f, c); }
  }

  /** Of a newest-first list, the rows up to k - 1 are not older than row k - 1. */
  lemma NewerPart(r: seq<Row>, f: Filter, k: nat)
    requires NewestFirst(r) && 0 < k <= |r|
    ensures Select(r[..k], f, Some(KeyOf(r[k - 1]))) == []
  {
    var c := KeyOf(r[k - 1]);
    forall i | 0 <= i < k ensures !Older(KeyOf(r[i]), c) {
      OlderIrreflexive(c);
      if i < k - 1 && Older(KeyOf(r[i]), c) { OlderTransitive(c, KeyOf(r[i]), c); }
    }
    SelectNone(r[..k], f, Some(c));
  }

  lemma OlderPart(r: seq<Row>, f: Filter, k: nat)
    requires NewestFirst(r) && 0 < k <= |r|
    requires forall i | 0 <= i < |r| :: Wanted(r[i], f, None)
    ensures Select(r[k..], f, Some(KeyOf(r[k - 1]))) == r[k..]
  {
    var c := KeyOf(r[k - 1]);
    forall i | 0 <= i < |r| - k ensures Wanted(r[k..][i], f, Some(c)) {
      assert Wanted(r[k + i], f, None) && Older(KeyOf(r[k + i]), c);
    }
    SelectEverything(r[k..], f, Some(c));
  }

  /** What is older than row k - 1 of the list is the list from row k on. */
  lemma CursorIsAPosition(rows: seq<Row>, f: Filter, k: nat)
    requires NewestFirst(rows)
    requires 0 < k <= |Select(rows, f, None)|
    ensures Select(rows, f, Some(KeyOf(Select(rows, f, None)[k - 1]))) == Select(rows, f, None)[k..]
  {
    var r := Select(rows, f, None);
    var c := KeyOf(r[k - 1]);
    SelectNewestFirst(rows, f, None);
    forall i | 0 <= i < |r| ensures Wanted(r[i], f, None) { SelectMembers(rows, f, None, r[i]); }
    SelectTwice(rows, f, Some(c));
    SelectConcat(r[..k], r[k..], f, Some(c));
    assert r[..k] + r[k..] == r;
    NewerPart(r, f, k);
    OlderPart(r, f, k);
  }

  /** The cursor of a full page decodes to the key of its last row. */
  lemma CursorOfPage(t: Table, days: seq<string>, f: Filter, limit: int, cursor: string)
    requires Keyed(t) && DayList(days)
    ensures var p := PageOf(t, days, f, limit, cursor);
            p.cursor != "" ==> p.items != [] && DecodeCursor(p.cursor) == Some(KeyOf(p.items[|p.items| - 1]))
  {
    var p := PageOf(t, days, f, limit, cursor);
    if p.cursor != "" {
      var r := p.items[|p.items| - 1];
      assert r in Selection(t, days, f, cursor);
      SelectMembers(AllRows(t, days), f, DecodeCursor(cursor), r);
      AllRowsNewestFirst(t, days);
      CursorRoundTrip(KeyOf(r));
    }
  }

  // --- a table that does not change ------------------------------------------------------

  function FullList(t: Table, days: seq<string>, f: Filter): seq<Row> {
    Select(AllRows(t, days), f, None)
  }

  /** A page goes on in the list from where its cursor stands. */
  lemma PageIsASlice(t: Table, days: seq<string>, f: Filter, limit: int, cursor: string, k: nat)
    requires k <= |FullList(t, days, f)|
    requires Selection(t, days, f, cursor) == FullList(t, days, f)[k..]
    ensures var p, r := PageOf(t, days, f, limit, cursor), FullList(t, days, f);
            k + |p.items| <= |r| && p.items == r[k..k + |p.items|]
  {
  }

  lemma PageIsFullOrLast(t: Table, days: seq<string>, f: Filter, limit: int, cursor: string)
    ensures var p, s := PageOf(t, days, f, limit, cursor), Selection(t, days, f, cursor);
            && (p.cursor != "" ==> |p.items| == EffectiveLimit(limit))
            && (p.cursor == "" ==> p.items == s && |s| < EffectiveLimit(limit))
  {
    var p := PageOf(t, days, f, limit, cursor);
    if |p.items| == EffectiveLimit(limit) {
      assert EncodeCursor(KeyOf(p.items[|p.items| - 1])) != "";
    }
  }

  /** The cursor a page hands out stands where the page ends. */
  lemma CursorStandsAtTheEnd(t: Table, days: seq<string>, f: Filter, limit: int, cursor: string, k: nat)
    requires Keyed(t) && DayList(days) && k <= |FullList(t, days, f)|
    requires Selection(t, days, f, cursor) == FullList(t, days, f)[k..]
    requires PageOf(t, days, f, limit, cursor).cursor != ""
    ensures var p, r := PageOf(t, days, f, limit, cursor), FullList(t, days, f);
            k + |p.items| <= |r| && Selection(t, days, f, p.cursor) == r[k + |p.items|..]
  {
    PageIsASlice(t, days, f, limit, cursor, k);
    CursorOfPage(t, days, f, limit, cursor);
    AllRowsNewestFirst(t, days);
    CursorIsAPosition(AllRows(t, days), f, k + |PageOf(t, days, f, limit, cursor).items|);
  }

  lemma OnePageFurther(t: Table, days: seq<string>, f: Filter, limit: int, cursor: string, before: seq<Row>)
    requires Keyed(t) && DayList(days) && before <= FullList(t, days, f)
    requires Selection(t, days, f, cursor) == FullList(t, days, f)[|before|..]
    ensures var p, r := PageOf(t, days, f, limit, cursor), FullList(t, days, f);
            && before + p.items <= r
            && (p.cursor != "" ==> |p.items| == EffectiveLimit(limit)
                                   && Selection(t, days, f, p.cursor) == r[|before + p.items|..])
            && (p.cursor == "" ==> |p.items| < EffectiveLimit(limit) && before + p.items == r)
  {
    PageIsASlice(t, days, f, limit, cursor, |before|);
    PageIsFullOrLast(t, days, f, limit, cursor);
    if PageOf(t, days, f, limit, cursor).cursor != "" {
      CursorStandsAtTheEnd(t, days, f, limit, cursor, |before|);
    }
  }

  /** The pages read so far are the beginning of the list, all but the last are full, and
      the next one goes on from where they end. */
  lemma {:induction false} PagesAreAPrefix(ts: seq<Table>, t: Table, days: seq<string>, f: Filter, limit: int,
                                           pages: seq<Page>)
    requires IsWalk(ts, days, f, limit, pages) && Unchanging(ts, t) && DayList(days)
    ensures Items(pages) <= FullList(t, days, f)
    ensures !Complete(pages) ==>
              && |Items(pages)| == |pages| * EffectiveLimit(limit)
              && Selection(t, days, f, NextCursor(pages)) == FullList(t, days, f)[|Items(pages)|..]
    ensures Complete(pages) ==>
              && |Items(pages)| < |pages| * EffectiveLimit(limit)
              && (|pages| - 1) * EffectiveLimit(limit) <= |Items(pages)|
              && Items(pages) == FullList(t, days, f)
  {
    if pages != [] {
      var n := |pages| - 1;
      PagesAreAPrefix(ts[..n], t, days, f, limit, pages[..n]);
      assert ts[n] == t;
      OnePageFurther(t, days, f, limit, NextCursor(pages[..n]), Items(pages[..n]));
      TimesOneMore(n, EffectiveLimit(limit));
    }
  }

  lemma TimesOneMore(i: nat, n: nat)
    ensures (i + 1) * n == i * n + n
  {
  }

  /** Over a table that does not change, a complete walk returns the newest-first filtered
      list exactly: nothing twice, nothing left out, for every limit. */
  lemma WalkReturnsTheList(ts: seq<Table>, t: Table, days: seq<string>, f: Filter, limit: int, pages: seq<Page>)
    requires IsWalk(ts, days, f, limit, pages) && Unchanging(ts, t) && DayList(days)
    requires Complete(pages)
    ensures Items(pages) == FullList(t, days, f)
  {
    PagesAreAPrefix(ts, t, days, f, limit, pages);
  }

  /** The walk ends: no walk, complete or not, has more than N / limit + 1 pages, and a
      complete one has exactly so many. */
  lemma WalkEnds(ts: seq<Table>, t: Table, days: seq<string>, f: Filter, limit: int, pages: seq<Page>)
    requires IsWalk(ts, days, f, limit, pages) && Unchanging(ts, t) && DayList(days)
    ensures |pages| <= |FullList(t, days, f)| / EffectiveLimit(limit) + 1
    ensures Complete(pages) ==> |pages| == |FullList(t, days, f)| / EffectiveLimit(limit) + 1
  {
    PagesAreAPrefix(ts, t, days, f, limit, pages);
    var a, n := |FullList(t, days, f)|, EffectiveLimit(limit);
    if Complete(pages) {
      Quotient(a, n, |pages| - 1);
      TimesOneMore(|pages| - 1, n);
    } else {
      Quotient(a, n, |pages|);
    }
  }

  lemma Quotient(a: nat, n: nat, q: nat)
    requires n > 0 && q * n <= a
    ensures q <= a / n
    ensures a < q * n + n ==> a / n == q
  {
    var d := a / n;
    assert d * n <= a < d * n + n;
    assert d < q ==> (d + 1) * n <= q * n;
    assert q < d ==> (q + 1) * n <= d * n;
  }

  // --- a table that gains rows between pages ----------------------------------------------

  lemma {:induction false} MoreRows(t: Table, u: Table, days: seq<string>, r: Row)
    requires Grows(t, u) && r in AllRows(t, days)
    ensures r in AllRows(u, days)
  {
    var n := |days| - 1;
    if r in AllRows(t, days[..n]) { MoreRows(t, u, days[..n], r); }
  }

  /** A page holds every wanted row down to its last one, or all of them. */
  lemma PageHasNoGap(t: Table, days: seq<string>, f: Filter, limit: int, cursor: string, r: Row)
    requires Keyed(t) && DayList(days)
    requires r in AllRows(t, days) && Wanted(r, f, DecodeCursor(cursor))
    ensures var p := PageOf(t, days, f, limit, cursor);
            r in p.items
            || (p.cursor != "" && p.items != [] && Older(KeyOf(r), KeyOf(p.items[|p.items| - 1])))
  {
    var n := EffectiveLimit(limit);
    var s := Selection(t, days, f, cursor);
    SelectMembers(AllRows(t, days), f, DecodeCursor(cursor), r);
    AllRowsNewestFirst(t, days);
    SelectNewestFirst(AllRows(t, days), f, DecodeCursor(cursor));
    var k :| 0 <= k < |s| && s[k] == r;
    if k < n {
      assert Take(s, n)[k] == r;
    }
  }

  function LastKey(rows: seq<Row>): Key
    requires rows != []
  {
    KeyOf(rows[|rows| - 1])
  }

  /** A page that may be followed by another ends with the row of its cursor. */
  lemma {:induction false} CursorIsTheLastRow(ts: seq<Table>, days: seq<string>, f: Filter, limit: int, pages: seq<Page>)
    requires IsWalk(ts, days, f, limit, pages) && DayList(days) && pages != [] && !Complete(pages)
    ensures Items(pages) != [] && DecodeCursor(NextCursor(pages)) == Some(LastKey(Items(pages)))
  {
    var n := |pages| - 1;
    CursorOfPage(ts[n], days, f, limit, NextCursor(pages[..n]));
  }

  /** A page below the last row so far keeps the rows newest first. */
  lemma PageDescends(t: Table, days: seq<string>, f: Filter, limit: int, cursor: string, before: seq<Row>)
    requires Keyed(t) && DayList(days) && NewestFirst(before)
    requires before != [] ==> DecodeCursor(cursor) == Some(LastKey(before))
    ensures NewestFirst(before + PageOf(t, days, f, limit, cursor).items)
  {
    var rows, c := AllRows(t, days), DecodeCursor(cursor);
    var items := PageOf(t, days, f, limit, cursor).items;
    AllRowsNewestFirst(t, days);
    SelectNewestFirst(rows, f, c);
    PrefixNewestFirst(items, Select(rows, f, c));
    if before == [] {
      assert before + items == items;
    } else {
      NewerThenOlder(before, items, LastKey(before), rows, f);
    }
  }

  lemma PrefixNewestFirst(a: seq<Row>, b: seq<Row>)
    requires a <= b && NewestFirst(b)
    ensures NewestFirst(a)
  {
    forall i, j | 0 <= i < j < |a| ensures Older(KeyOf(a[j]), KeyOf(a[i])) {
      assert a[i] == b[i] && a[j] == b[j];
    }
  }

  /** The rows of a walk come newest first. */
  lemma {:induction false} RowsDescend(ts: seq<Table>, days: seq<string>, f: Filter, limit: int, pages: seq<Page>)
    requires IsWalk(ts, days, f, limit, pages) && DayList(days)
    ensures NewestFirst(Items(pages))
  {
    if pages != [] {
      var n := |pages| - 1;
      RowsDescend(ts[..n], days, f, limit, pages[..n]);
      if n > 0 { CursorIsTheLastRow(ts[..n], days, f, limit, pages[..n]); }
      PageDescends(ts[n], days, f, limit, NextCursor(pages[..n]), Items(pages[..n]));
    }
  }

  /** A row that is always there has come, or is still older than everything that came. */
  lemma {:induction false} RowsHaveNoGap(ts: seq<Table>, days: seq<string>, f: Filter, limit: int, pages: seq<Page>, r: Row)
    requires IsWalk(ts, days, f, limit, pages) && DayList(days) && pages != []
    requires forall i | 0 <= i < |ts| :: r in FullList(ts[i], days, f)
    ensures r in Items(pages) || (!Complete(pages) && Items(pages) != [] && Older(KeyOf(r), LastKey(Items(pages))))
  {
    var n := |pages| - 1;
    if n > 0 {
      RowsHaveNoGap(ts[..n], days, f, limit, pages[..n], r);
      CursorIsTheLastRow(ts[..n], days, f, limit, pages[..n]);
    }
    if n == 0 || r !in Items(pages[..n]) {
      assert r in FullList(ts[n], days, f);
      SelectMembers(AllRows(ts[n], days), f, None, r);
      PageHasNoGap(ts[n], days, f, limit, NextCursor(pages[..n]), r);
    }
  }

  /** Rows selected below a cursor continue a newest-first list that ends at the cursor. */
  lemma NewerThenOlder(before: seq<Row>, items: seq<Row>, c: Key, rows: seq<Row>, f: Filter)
    requires NewestFirst(before) && NewestFirst(items)
    requires before != [] && KeyOf(before[|before| - 1]) == c
    requires items <= Select(rows, f, Some(c))
    ensures NewestFirst(before + items)
  {
    forall i, j | 0 <= i < |before| && 0 <= j < |items|
      ensures Older(KeyOf(items[j]), KeyOf(before[i]))
    {
      assert items[j] in Select(rows, f, Some(c));
      SelectMembers(rows, f, Some(c), items[j]);
      if i < |before| - 1 { OlderTransitive(KeyOf(items[j]), c, KeyOf(before[i])); }
    }
    JoinNewestFirst(before, items);
  }

  lemma JoinNewestFirst(a: seq<Row>, b: seq<Row>)
    requires NewestFirst(a) && NewestFirst(b)
    requires forall i, j | 0 <= i < |a| && 0 <= j < |b| :: Older(KeyOf(b[j]), KeyOf(a[i]))
    ensures NewestFirst(a + b)
  {
    var s := a + b;
    forall i, j | 0 <= i < j < |s| ensures Older(KeyOf(s[j]), KeyOf(s[i])) {
      if i < |a| && j >= |a| { assert s[j] == b[j - |a|]; }
    }
  }

  /** While rows are inserted between pages, the keys returned still strictly descend, so
      no row comes twice, and every matching row present from the start is returned. */
  lemma WalkOverAGrowingTable(ts: seq<Table>, days: seq<string>, f: Filter, limit: int, pages: seq<Page>)
    requires IsWalk(ts, days, f, limit, pages) && Growing(ts) && DayList(days) && Complete(pages)
    ensures NewestFirst(Items(pages))
    ensures forall r | r in FullList(ts[0], days, f) :: r in Items(pages)
  {
    RowsDescend(ts, days, f, limit, pages);
    forall r | r in FullList(ts[0], days, f) ensures r in Items(pages) {
      forall i | 0 <= i < |ts| ensures r in FullList(ts[i], days, f) {
        SelectMembers(AllRows(ts[0], days), f, None, r);
        MoreRows(ts[0], ts[i], days, r);
        SelectMembers(AllRows(ts[i], days), f, None, r);
      }
      RowsHaveNoGap(ts, days, f, limit, pages, r);
    }
  }

  /** Nothing is returned that the table did not hold, or that the filter excludes. */
  lemma {:induction false} WalkReturnsOnlyMatches(ts: seq<Table>, days: seq<string>, f: Filter, limit: int, pages: seq<Page>,
                                                  r: Row)
    requires IsWalk(ts, days, f, limit, pages) && r in Items(pages)
    ensures exists i | 0 <= i < |ts| :: r in FullList(ts[i], days, f)
  {
    var n := |pages| - 1;
    if r in pages[n].items {
      var c := DecodeCursor(NextCursor(pages[..n]));
      SelectMembers(AllRows(ts[n], days), f, c, r);
      SelectMembers(AllRows(ts[n], days), f, None, r);
      assert r in FullList(ts[n], days, f);
    } else {
      WalkReturnsOnlyMatches(ts[..n], days, f, limit, pages[..n], r);
      var i :| 0 <= i < n && r in FullList(ts[..n][i], days, f);
      assert ts[..n][i] == ts[i];
    }
  }

  // --- the walk ends although the table grows ---------------------------------------------

  lemma DistinctRowsFit(a: seq<Row>, b: seq<Row>)
    requires NewestFirst(a) && forall r | r in a :: r in b
    ensures |a| <= |b|
  {
    var inA, inB := set r | r in a, set r | r in b;
    RowsAsSet(a);
    SetIsNotLarger(b);
    SubsetIsNotLarger(inA, inB);
  }

  lemma {:induction false} RowsAsSet(a: seq<Row>)
    requires NewestFirst(a)
    ensures |set r | r in a| == |a|
  {
    if a != [] {
      var n := |a| - 1;
      RowsAsSet(a[..n]);
      var before := set r | r in a[..n];
      if a[n] in before {
        var k :| 0 <= k < n && a[k] == a[n];
        OlderIrreflexive(KeyOf(a[n]));
      }
      assert (set r | r in a) == before + {a[n]};
    }
  }

  lemma {:induction false} SetIsNotLarger(b: seq<Row>)
    ensures |set r | r in b| <= |b|
  {
    if b != [] {
      var n := |b| - 1;
      SetIsNotLarger(b[..n]);
      assert (set r | r in b) == (set r | r in b[..n]) + {b[n]};
    }
  }

  lemma SubsetIsNotLarger(x: set<Row>, y: set<Row>)
    requires x <= y
    ensures |x| <= |y|
  {
    assert y == x + (y - x);
  }

  /** All pages but the last are full. */
  lemma {:induction false} PagesAreFull(ts: seq<Table>, days: seq<string>, f: Filter, limit: int, pages: seq<Page>)
    requires IsWalk(ts, days, f, limit, pages)
    ensures pages != [] ==> (|pages| - 1) * EffectiveLimit(limit) <= |Items(pages)|
    ensures pages != [] && !Complete(pages) ==> |Items(pages)| == |pages| * EffectiveLimit(limit)
  {
    if pages != [] {
      var n := |pages| - 1;
      PagesAreFull(ts[..n], days, f, limit, pages[..n]);
      TimesOneMore(n, EffectiveLimit(limit));
      PageIsFullOrLast(ts[n], days, f, limit, NextCursor(pages[..n]));
    }
  }

  /** However the table grows, the full pages of a walk do not hold more rows than match in its
      last snapshot: a walk can only go on while rows are added. */
  lemma WalkIsBounded(ts: seq<Table>, days: seq<string>, f: Filter, limit: int, pages: seq<Page>)
    requires IsWalk(ts, days, f, limit, pages) && Growing(ts) && DayList(days) && pages != []
    ensures (|pages| - 1) * EffectiveLimit(limit) <= |Items(pages)| <= |FullList(ts[|ts| - 1], days, f)|
  {
    var last := ts[|ts| - 1];
    PagesAreFull(ts, days, f, limit, pages);
    RowsDescend(ts, days, f, limit, pages);
    forall r | r in Items(pages) ensures r in FullList(last, days, f) {
      WalkReturnsOnlyMatches(ts, days, f, limit, pages, r);
      var i :| 0 <= i < |ts| && r in FullList(ts[i], days, f);
      SelectMembers(AllRows(ts[i], days), f, None, r);
      MoreRows(ts[i], last, days, r);
      SelectMembers(AllRows(last, days), f, None, r);
    }
    DistinctRowsFit(Items(pages), FullList(last, days, f));
  }

  // --- partitions read at different times -------------------------------------------------

  /** Page i reads partition d from snapshot ts[i][d]; rows are inserted at any time in between. */
  ghost predicate GrowingReads(ts: seq<seq<Table>>, days: seq<string>) {
    && (forall i | 0 <= i < |ts| :: |ts[i]| == |days|)
    && (forall i, d | 0 <= i < |ts| && 0 <= d < |days| :: Keyed(ts[i][d]))
    && (forall i, d, j, e | 0 <= i < |ts| && 0 <= d < |days| && 0 <= j < |ts| && 0 <= e < |days|
                            && (i < j || (i == j && d <= e)) :: Grows(ts[i][d], ts[j][e]))
  }

  ghost function SeenByPages(ts: seq<seq<Table>>, days: seq<string>): (seen: seq<Table>)
    requires GrowingReads(ts, days)
    ensures |seen| == |ts|
  {
    seq(|ts|, i requires 0 <= i < |ts| => Seen(ts[i], days))
  }

  /** Page i is what a query answers that reads its partitions from the snapshots ts[i], with the
      cursor that page i - 1 handed out. */
  ghost predicate IsQueryWalk(ts: seq<seq<Table>>, days: seq<string>, f: Filter, limit: int, pages: seq<Page>) {
    |ts| == |pages|
    && (pages != [] ==>
          var n := |pages| - 1;
          && IsQueryWalk(ts[..n], days, f, limit, pages[..n])
          && |ts[n]| == |days|
          && (n > 0 ==> NextCursor(pages[..n]) != "")
          && pages[n] == PageOf(Seen(ts[n], days), days, f, limit, NextCursor(pages[..n])))
  }

  lemma {:induction false} QueryWalkIsWalk(seen: seq<Table>, ts: seq<seq<Table>>, days: seq<string>, f: Filter,
                                           limit: int, pages: seq<Page>)
    requires |seen| == |ts| && IsQueryWalk(ts, days, f, limit, pages)
    requires forall i | 0 <= i < |ts| :: |ts[i]| == |days| && seen[i] == Seen(ts[i], days)
    requires forall i | 0 <= i < |ts| :: Keyed(seen[i])
    ensures IsWalk(seen, days, f, limit, pages)
  {
    if pages != [] {
      var n := |pages| - 1;
      QueryWalkIsWalk(seen[..n], ts[..n], days, f, limit, pages[..n]);
    }
  }

  lemma SeenAreKeyed(ts: seq<seq<Table>>, days: seq<string>)
    requires GrowingReads(ts, days) && Descending(days)
    ensures forall i | 0 <= i < |ts| :: Keyed(SeenByPages(ts, days)[i])
  {
    forall i | 0 <= i < |ts| ensures Keyed(SeenByPages(ts, days)[i]) {
      SeenIsKeyed(ts[i], days);
    }
  }

  lemma SeenGrows(ts: seq<seq<Table>>, days: seq<string>)
    requires GrowingReads(ts, days) && Descending(days)
    ensures Growing(SeenByPages(ts, days))
  {
    var seen := SeenByPages(ts, days);
    forall i, j | 0 <= i <= j < |ts| ensures Grows(seen[i], seen[j]) {
      SeenHasTheDays(ts[i], days);
      SeenHasTheDays(ts[j], days);
      forall day, r | r in Partition(seen[i], day) ensures r in Partition(seen[j], day) {
        var d :| 0 <= d < |days| && days[d] == day;
        assert Grows(ts[i][d], ts[j][d]);
      }
    }
  }

  lemma FirstReadIsSeen(ts: seq<seq<Table>>, days: seq<string>, f: Filter, r: Row)
    requires GrowingReads(ts, days) && Descending(days) && ts != [] && days != []
    requires r in FullList(ts[0][0], days, f)
    ensures r in FullList(Seen(ts[0], days), days, f)
  {
    SelectMembers(AllRows(ts[0][0], days), f, None, r);
    SeenHasTheDays(ts[0], days);
    RowHasADay(ts[0][0], days, r);
    var d :| 0 <= d < |days| && r in Partition(ts[0][0], days[d]);
    assert Grows(ts[0][0], ts[0][d]);
    DayHasTheRow(Seen(ts[0], days), days, d, r);
    SelectMembers(AllRows(Seen(ts[0], days), days), f, None, r);
  }

  lemma {:induction false} RowHasADay(t: Table, days: seq<string>, r: Row)
    requires r in AllRows(t, days)
    ensures exists d | 0 <= d < |days| :: r in Partition(t, days[d])
  {
    var n := |days| - 1;
    if r !in Partition(t, days[n]) {
      RowHasADay(t, days[..n], r);
      var d :| 0 <= d < n && r in Partition(t, days[..n][d]);
      assert r in Partition(t, days[d]);
    }
  }

  lemma {:induction false} DayHasTheRow(t: Table, days: seq<string>, d: nat, r: Row)
    requires d < |days| && r in Partition(t, days[d])
    ensures r in AllRows(t, days)
  {
    if d < |days| - 1 { DayHasTheRow(t, days[..|days| - 1], d, r); }
  }

  lemma QueriesAreAWalk(ts: seq<seq<Table>>, days: seq<string>, f: Filter, limit: int, pages: seq<Page>)
    requires GrowingReads(ts, days) && Descending(days) && IsQueryWalk(ts, days, f, limit, pages)
    ensures IsWalk(SeenByPages(ts, days), days, f, limit, pages) && Growing(SeenByPages(ts, days))
  {
    SeenGrows(ts, days);
    SeenAreKeyed(ts, days);
    QueryWalkIsWalk(SeenByPages(ts, days), ts, days, f, limit, pages);
  }

  lemma FirstReadsAreSeen(ts: seq<seq<Table>>, days: seq<string>, f: Filter)
    requires GrowingReads(ts, days) && Descending(days) && ts != [] && days != []
    ensures forall r | r in FullList(ts[0][0], days, f) :: r in FullList(Seen(ts[0], days), days, f)
  {
    forall r | r in FullList(ts[0][0], days, f) ensures r in FullList(Seen(ts[0], days), days, f) {
      FirstReadIsSeen(ts, days, f, r);
    }
  }

  /** What a walk over growing tables promises, said with a table t that its first one holds. */
  lemma WalkFrom(seen: seq<Table>, t: Table, days: seq<string>, f: Filter, limit: int, pages: seq<Page>)
    requires IsWalk(seen, days, f, limit, pages) && Growing(seen) && DayList(days) && pages != []
    requires forall r | r in FullList(t, days, f) :: r in FullList(seen[0], days, f)
    ensures NewestFirst(Items(pages))
    ensures Complete(pages) ==> forall r | r in FullList(t, days, f) :: r in Items(pages)
    ensures (|pages| - 1) * EffectiveLimit(limit) <= |FullList(seen[|seen| - 1], days, f)|
  {
    RowsDescend(seen, days, f, limit, pages);
    WalkIsBounded(seen, days, f, limit, pages);
    if Complete(pages) { WalkOverAGrowingTable(seen, days, f, limit, pages); }
  }

  /** The same of queries when rows are inserted between the partitions of one page as well: keys
      strictly descend, every matching row present at the first read is returned, and the walk
      goes on only while rows are added. */
  lemma WalkOverGrowingPartitions(ts: seq<seq<Table>>, days: seq<string>, f: Filter, limit: int, pages: seq<Page>)
    requires GrowingReads(ts, days) && DayList(days) && days != [] && pages != []
    requires IsQueryWalk(ts, days, f, limit, pages)
    ensures NewestFirst(Items(pages))
    ensures Complete(pages) ==> forall r | r in FullList(ts[0][0], days, f) :: r in Items(pages)
    ensures (|pages| - 1) * EffectiveLimit(limit) <= |FullList(Seen(ts[|ts| - 1], days), days, f)|
  {
    QueriesAreAWalk(ts, days, f, limit, pages);
    FirstReadsAreSeen(ts, days, f);
    WalkFrom(SeenByPages(ts, days), ts[0][0], days, f, limit, pages);
  }
}
