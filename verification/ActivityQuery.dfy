/**
 Cursor pagination over the audit log (activity_store.py, ActivityStore.query).

 The log is partitioned by day; a query walks the partitions newest first with nested
 loops and a cursor.  The specification is one list: all rows of the days, filtered and
 older than the cursor, of which a page takes the first `limit`.
 */
module ActivityQuery {
  import opened Wrappers
  import opened TextOrder
  import opened Calendar

  datatype Row = Row(day: string, tsId: string, actor: string, kind: string, detail: string)

  type Table = map<string, seq<Row>>

  datatype Key = Key(day: string, tsId: string)

  /** "" stands for a filter that is not given (None and "" are both false in Python). */
  datatype Filter = Filter(actor: string, kind: string)

  /** cursor is "" when there is no next page (None in the answer, no cursor in a request). */
  datatype Page = Page(items: seq<Row>, cursor: string)

  function KeyOf(r: Row): Key {
    Key(r.day, r.tsId)
  }

  /** Older: an earlier day, or the same day and a smaller ts_id. */
  predicate Older(a: Key, b: Key) {
    Less(a.day, b.day) || (a.day == b.day && Less(a.tsId, b.tsId))
  }

  lemma OlderTransitive(a: Key, b: Key, c: Key)
    requires Older(a, b) && Older(b, c)
    ensures Older(a, c)
  {
    if Less(a.day, b.day) && Less(b.day, c.day) { LessTransitive(a.day, b.day, c.day); }
    if Less(a.tsId, b.tsId) && Less(b.tsId, c.tsId) { LessTransitive(a.tsId, b.tsId, c.tsId); }
  }

  lemma OlderIrreflexive(a: Key)
    ensures !Older(a, a)
  {
    LessIrreflexive(a.day);
    LessIrreflexive(a.tsId);
  }

  // --- tables ---------------------------------------------------------------------

  function Partition(t: Table, day: string): seq<Row> {
    if day in t then t[day] else []
  }

  /** Newest first, with no key twice. */
  ghost predicate NewestFirst(rows: seq<Row>) {
    forall i, j | 0 <= i < j < |rows| :: Older(KeyOf(rows[j]), KeyOf(rows[i]))
  }

  /** (day, ts_id) is the table's key, and a partition is read with descending ts_id. */
  ghost predicate Keyed(t: Table) {
    forall day | day in t :: NewestFirst(t[day]) && forall k | 0 <= k < |t[day]| :: t[day][k].day == day
  }

  /** All rows of the listed days, in the order of the days. */
  function AllRows(t: Table, days: seq<string>): seq<Row> {
    if days == [] then [] else AllRows(t, days[..|days| - 1]) + Partition(t, days[|days| - 1])
  }

  lemma {:induction false} AllRowsNewestFirst(t: Table, days: seq<string>)
    requires Keyed(t) && Descending(days)
    ensures NewestFirst(AllRows(t, days))
    ensures forall k | 0 <= k < |AllRows(t, days)| :: AllRows(t, days)[k].day in days
  {
    if days != [] {
      var n := |days| - 1;
      AllRowsNewestFirst(t, days[..n]);
      var head := AllRows(t, days[..n]);
      forall k | 0 <= k < |head| ensures Less(days[n], head[k].day) {
        assert head[k].day in days[..n];
      }
    }
  }

  // --- the specification of a page --------------------------------------------------

  predicate Wanted(r: Row, f: Filter, c: Option<Key>) {
    && (f.actor == "" || r.actor == f.actor)
    && (f.kind == "" || r.kind == f.kind)
    && (c.Some? ==> Older(KeyOf(r), c.value))
  }

  function Select(rows: seq<Row>, f: Filter, c: Option<Key>): (s: seq<Row>)
    ensures |s| <= |rows|
  {
    if rows == [] then []
    else
      var n := |rows| - 1;
      Select(rows[..n], f, c) + (if Wanted(rows[n], f, c) then [rows[n]] else [])
  }

  function Take<T>(s: seq<T>, n: nat): seq<T> {
    if |s| <= n then s else s[..n]
  }

  /** limit: 0 means the default 100, and the rest is clamped to 1..1000. */
  function EffectiveLimit(limit: int): (n: nat)
    ensures n >= 1
  {
    var l := if limit == 0 then 100 else limit;
    if l < 1 then 1 else if l > 1000 then 1000 else l
  }

  function EncodeCursor(k: Key): string {
    k.day + "|" + k.tsId
  }

  function Bar(s: string): (i: nat)
    requires '|' in s
    ensures i < |s| && s[i] == '|' && forall j | 0 <= j < i :: s[j] != '|'
  {
    if s[0] == '|' then 0 else 1 + Bar(s[1..])
  }

  /** cursor.split("|", 1); a cursor without a bar is ignored. */
  function DecodeCursor(cursor: string): Option<Key> {
    if '|' !in cursor then None
    else Some(Key(cursor[..Bar(cursor)], cursor[Bar(cursor) + 1..]))
  }

  /** A cursor handed out comes back as the key it was made from, whatever the ts_id. */
  lemma CursorRoundTrip(k: Key)
    requires '|' !in k.day
    ensures DecodeCursor(EncodeCursor(k)) == Some(k)
    ensures EncodeCursor(k) != ""
  {
    var s := EncodeCursor(k);
    assert s[|k.day|] == '|';
    var i := Bar(s);
    assert forall j | 0 <= j < |k.day| :: s[j] == k.day[j] && k.day[j] in k.day;
    assert s[..|k.day|] == k.day && s[|k.day| + 1..] == k.tsId;
  }

  /** A cursor stands for the key whose day is what comes before its first bar; without a bar it
      stands for nothing. */
  lemma CursorStandsFor(cursor: string, k: Key)
    ensures DecodeCursor(cursor) == Some(k) <==> cursor == k.day + "|" + k.tsId && '|' !in k.day
    ensures DecodeCursor(cursor) == None <==> '|' !in cursor
  {
    if DecodeCursor(cursor) == Some(k) {
      var i := Bar(cursor);
      assert cursor == cursor[..i] + [cursor[i]] + cursor[i + 1..];
      assert forall j | 0 <= j < i :: cursor[..i][j] == cursor[j];
    }
    if cursor == k.day + "|" + k.tsId && '|' !in k.day {
      CursorRoundTrip(k);
    }
  }

  function Selection(t: Table, days: seq<string>, f: Filter, cursor: string): seq<Row> {
    Select(AllRows(t, days), f, DecodeCursor(cursor))
  }

  /** A page: the first `limit` rows of the selection, with a cursor when it is full. */
  function PageOf(t: Table, days: seq<string>, f: Filter, limit: int, cursor: string): Page {
    var items := Take(Selection(t, days, f, cursor), EffectiveLimit(limit));
    Page(items, if |items| == EffectiveLimit(limit) then EncodeCursor(KeyOf(items[|items| - 1])) else "")
  }

  lemma {:induction false} SelectConcat(a: seq<Row>, b: seq<Row>, f: Filter, c: Option<Key>)
    ensures Select(a + b, f, c) == Select(a, f, c) + Select(b, f, c)
  {
    if b == [] {
      assert a + b == a;
    } else {
      var n := |b| - 1;
      var last := if Wanted(b[n], f, c) then [b[n]] else [];
      SelectConcat(a, b[..n], f, c);
      assert (a + b)[..|a| + n] == a + b[..n];
      assert Select(a + b, f, c) == Select(a + b[..n], f, c) + last;
      assert Select(b, f, c) == Select(b[..n], f, c) + last;
    }
  }

  lemma {:induction false} SelectMembers(rows: seq<Row>, f: Filter, c: Option<Key>, r: Row)
    ensures r in Select(rows, f, c) <==> r in rows && Wanted(r, f, c)
  {
    if rows != [] {
      var n := |rows| - 1;
      SelectMembers(rows[..n], f, c, r);
      assert rows == rows[..n] + [rows[n]];
    }
  }

  /** A row is selected exactly if it is in a partition of the days, meets the filters that are
      given, and comes after the cursor: on an earlier day or, on the same, with a smaller ts_id. */
  lemma {:induction false} SelectedExactlyWhen(t: Table, days: seq<string>, f: Filter, cursor: string, r: Row)
    ensures r in Selection(t, days, f, cursor) <==>
            && (exists day <- days :: r in Partition(t, day))
            && (f.actor == "" || r.actor == f.actor) && (f.kind == "" || r.kind == f.kind)
            && (var c := DecodeCursor(cursor);
                c.Some? ==> Less(r.day, c.value.day) || (r.day == c.value.day && Less(r.tsId, c.value.tsId)))
  {
    SelectMembers(AllRows(t, days), f, DecodeCursor(cursor), r);
    AllRowsMembers(t, days, r);
  }

  lemma {:induction false} AllRowsMembers(t: Table, days: seq<string>, r: Row)
    ensures r in AllRows(t, days) <==> exists day <- days :: r in Partition(t, day)
  {
    if days != [] {
      var n := |days| - 1;
      AllRowsMembers(t, days[..n], r);
      assert days == days[..n] + [days[n]];
    }
  }

  /** The size that a request's limit stands for. */
  predicate AsksFor(limit: int, size: nat) {
    if limit == 0 then size == 100
    else if limit < 0 then size == 1
    else if limit <= 1000 then size == limit
    else size == 1000
  }

  /** A page has that many rows, the first of the selection, or all there are; only a page of
      full size has a cursor. */
  lemma PageSize(t: Table, days: seq<string>, f: Filter, limit: int, cursor: string, size: nat)
    requires AsksFor(limit, size)
    ensures var page, all := PageOf(t, days, f, limit, cursor), Selection(t, days, f, cursor);
            && |page.items| == (if |all| < size then |all| else size) && page.items <= all
            && (page.cursor != "" <==> |page.items| == size)
  {
    assert EffectiveLimit(limit) == size;
  }

  lemma {:induction false} SelectNewestFirst(rows: seq<Row>, f: Filter, c: Option<Key>)
    requires NewestFirst(rows)
    ensures NewestFirst(Select(rows, f, c))
  {
    if rows != [] {
      var n := |rows| - 1;
      SelectNewestFirst(rows[..n], f, c);
      var s := Select(rows[..n], f, c);
      forall k | 0 <= k < |s| ensures Older(KeyOf(rows[n]), KeyOf(s[k])) {
        SelectMembers(rows[..n], f, c, s[k]);
      }
    }
  }

  lemma {:induction false} SelectNone(rows: seq<Row>, f: Filter, c: Option<Key>)
    requires forall k | 0 <= k < |rows| :: !Wanted(rows[k], f, c)
    ensures Select(rows, f, c) == []
  {
    if rows != [] { SelectNone(rows[..|rows| - 1], f, c); }
  }

  // --- the nested loops ---------------------------------------------------------------

  /** What the cursor variables (cur_day, cur_ts_id) are worth before `days` from d on. */
  ghost predicate CursorTracks(cur: Option<Key>, c: Option<Key>, days: seq<string>, d: nat) {
    cur == c
    || (cur.None? && c.Some? && forall i | d <= i < |days| :: Less(days[i], c.value.day))
  }

  /** The test on a row, made only on the cursor's own day, is the test on whole keys. */
  lemma CursorTest(r: Row, cur: Option<Key>, c: Option<Key>)
    requires cur == c || (cur.None? && c.Some? && Less(r.day, c.value.day))
    requires cur.Some? ==> !Less(cur.value.day, r.day)
    ensures (c.Some? ==> Older(KeyOf(r), c.value)) <==>
            !(cur.Some? && r.day == cur.value.day && !Less(r.tsId, cur.value.tsId))
  {
    LessIrreflexive(r.day);
    if cur.Some? { LessTotal(r.day, cur.value.day); }
  }

  lemma RowTests(r: Row, f: Filter, cur: Option<Key>, c: Option<Key>)
    requires cur == c || (cur.None? && c.Some? && Less(r.day, c.value.day))
    requires cur.Some? ==> !Less(cur.value.day, r.day)
    ensures Wanted(r, f, c) <==>
            && !(cur.Some? && r.day == cur.value.day && !Less(r.tsId, cur.value.tsId))
            && !(f.actor != "" && r.actor != f.actor)
            && !(f.kind != "" && r.kind != f.kind)
  {
    CursorTest(r, cur, c);
  }

  /** The inner loop over one partition. */
  method QueryDay(rows: seq<Row>, day: string, f: Filter, n: nat, cur: Option<Key>, ghost c: Option<Key>,
                  collected: seq<Row>)
    returns (items: seq<Row>)
    requires |collected| < n
    requires forall k | 0 <= k < |rows| :: rows[k].day == day
    requires cur == c || (cur.None? && c.Some? && Less(day, c.value.day))
    requires cur.Some? ==> !Less(cur.value.day, day)
    ensures items == Take(collected + Select(rows, f, c), n)
  {
    items := collected;
    for k := 0 to |rows|
      invariant items == collected + Select(rows[..k], f, c)
      invariant |items| < n
    {
      var r := rows[k];
      NextRow(items, collected, rows, k, f, cur, c);
      if cur.Some? && day == cur.value.day && !Less(r.tsId, cur.value.tsId) { continue; }
      if f.actor != "" && r.actor != f.actor { continue; }
      if f.kind != "" && r.kind != f.kind { continue; }
      items := items + [r];
      if |items| >= n {
        FullDay(items, collected, rows, k + 1, f, c, n);
        return;
      }
    }
    assert rows[..|rows|] == rows;
  }

  lemma NextRow(items: seq<Row>, collected: seq<Row>, rows: seq<Row>, k: nat, f: Filter, cur: Option<Key>, c: Option<Key>)
    requires k < |rows| && items == collected + Select(rows[..k], f, c)
    requires cur == c || (cur.None? && c.Some? && Less(rows[k].day, c.value.day))
    requires cur.Some? ==> !Less(cur.value.day, rows[k].day)
    ensures var r := rows[k];
            var skipped := || (cur.Some? && r.day == cur.value.day && !Less(r.tsId, cur.value.tsId))
                           || (f.actor != "" && r.actor != f.actor) || (f.kind != "" && r.kind != f.kind);
            (if skipped then items else items + [r]) == collected + Select(rows[..k + 1], f, c)
  {
    RowTests(rows[k], f, cur, c);
    SelectOneMore(rows, k, f, c);
  }

  lemma FullDay(items: seq<Row>, collected: seq<Row>, rows: seq<Row>, k: nat, f: Filter, c: Option<Key>, n: nat)
    requires k <= |rows| && items == collected + Select(rows[..k], f, c) && |items| == n
    ensures items == Take(collected + Select(rows, f, c), n)
  {
    SelectPrefix(rows, k, f, c);
    TakePrefix(collected, Select(rows[..k], f, c), Select(rows, f, c), n);
  }

  lemma TakePrefix<T>(a: seq<T>, b: seq<T>, whole: seq<T>, n: nat)
    requires b <= whole && |a| + |b| == n
    ensures Take(a + whole, n) == a + b
  {
    assert (a + whole)[..n] == a + whole[..|b|];
  }

  lemma SelectOneMore(rows: seq<Row>, k: nat, f: Filter, c: Option<Key>)
    requires k < |rows|
    ensures Select(rows[..k + 1], f, c) ==
            if Wanted(rows[k], f, c) then Select(rows[..k], f, c) + [rows[k]] else Select(rows[..k], f, c)
  {
    assert rows[..k + 1][..k] == rows[..k];
  }

  lemma SelectPrefix(rows: seq<Row>, k: nat, f: Filter, c: Option<Key>)
    requires k <= |rows|
    ensures Select(rows[..k], f, c) <= Select(rows, f, c)
  {
    SelectConcat(rows[..k], rows[k..], f, c);
    assert rows[..k] + rows[k..] == rows;
  }

  lemma {:induction false} AllRowsPrefix(t: Table, days: seq<string>, d: nat)
    requires d <= |days|
    ensures AllRows(t, days[..d]) <= AllRows(t, days)
  {
    if d < |days| {
      AllRowsPrefix(t, days[..|days| - 1], d);
      assert days[..|days| - 1][..d] == days[..d];
    } else {
      assert days[..d] == days;
    }
  }

  /** A partition newer than the cursor's day has nothing to select. */
  lemma NewerDay(rows: seq<Row>, day: string, f: Filter, c: Key)
    requires forall k | 0 <= k < |rows| :: rows[k].day == day
    requires Less(c.day, day)
    ensures Select(rows, f, Some(c)) == []
  {
    if Less(day, c.day) { LessTransitive(day, c.day, day); }
    LessIrreflexive(day);
    SelectNone(rows, f, Some(c));
  }

  /** The days read so far settle the page once they fill it. */
  lemma FullPageIsSettled(t: Table, days: seq<string>, d: nat, f: Filter, c: Option<Key>, n: nat)
    requires d <= |days| && |Select(AllRows(t, days[..d]), f, c)| >= n
    ensures Take(Select(AllRows(t, days), f, c), n) == Take(Select(AllRows(t, days[..d]), f, c), n)
  {
    AllRowsPrefix(t, days, d);
    var some, all := AllRows(t, days[..d]), AllRows(t, days);
    SelectPrefix(all, |some|, f, c);
    assert all[..|some|] == some;
  }

  lemma OneMoreDay(t: Table, days: seq<string>, d: nat, f: Filter, c: Option<Key>)
    requires d < |days|
    ensures Select(AllRows(t, days[..d + 1]), f, c)
         == Select(AllRows(t, days[..d]), f, c) + Select(Partition(t, days[d]), f, c)
  {
    assert days[..d + 1][..d] == days[..d];
    SelectConcat(AllRows(t, days[..d]), Partition(t, days[d]), f, c);
  }

  // --- every partition is read at its own time -----------------------------------------

  /** What a query reads when the table is ts[d] at the time of its day d. */
  function Seen(ts: seq<Table>, days: seq<string>): Table
    requires |ts| == |days|
  {
    if days == [] then map[]
    else
      var n := |days| - 1;
      Seen(ts[..n], days[..n])[days[n] := Partition(ts[n], days[n])]
  }

  lemma {:induction false} SeenHasTheDays(ts: seq<Table>, days: seq<string>)
    requires |ts| == |days| && Descending(days)
    ensures forall day :: day in Seen(ts, days) <==> day in days
    ensures forall d | 0 <= d < |days| :: Partition(Seen(ts, days), days[d]) == Partition(ts[d], days[d])
  {
    if days != [] {
      var n := |days| - 1;
      SeenHasTheDays(ts[..n], days[..n]);
      assert forall day :: day in days <==> day in days[..n] || day == days[n];
      forall d | 0 <= d < n ensures days[d] != days[n] && days[d] == days[..n][d] && ts[d] == ts[..n][d] {
        LessIrreflexive(days[n]);
      }
    }
  }

  lemma SeenIsKeyed(ts: seq<Table>, days: seq<string>)
    requires |ts| == |days| && Descending(days) && forall d | 0 <= d < |ts| :: Keyed(ts[d])
    ensures Keyed(Seen(ts, days))
  {
    SeenHasTheDays(ts, days);
    forall day | day in Seen(ts, days)
      ensures NewestFirst(Seen(ts, days)[day])
      ensures forall k | 0 <= k < |Seen(ts, days)[day]| :: Seen(ts, days)[day][k].day == day
    {
      var d :| 0 <= d < |days| && days[d] == day;
      assert Seen(ts, days)[day] == Partition(ts[d], day) && Keyed(ts[d]);
    }
  }

  /** At day d the query reads the rows that t has for it. */
  ghost predicate ReadsDay(ts: seq<Table>, days: seq<string>, t: Table, d: nat)
    requires |ts| == |days| && d < |days|
  {
    && Partition(ts[d], days[d]) == Partition(t, days[d])
    && forall k | 0 <= k < |Partition(t, days[d])| :: Partition(t, days[d])[k].day == days[d]
  }

  lemma SeenIsRead(ts: seq<Table>, days: seq<string>)
    requires |ts| == |days| && Descending(days) && forall d | 0 <= d < |ts| :: Keyed(ts[d])
    ensures forall d: nat | d < |days| :: ReadsDay(ts, days, Seen(ts, days), d)
  {
    SeenHasTheDays(ts, days);
    forall d: nat | d < |days| ensures ReadsDay(ts, days, Seen(ts, days), d) {
      assert Keyed(ts[d]);
    }
  }

  lemma FullPage(t: Table, days: seq<string>, d: nat, f: Filter, limit: int, cursor: string, collected: seq<Row>)
    requires d <= |days|
    requires var n, chosen := EffectiveLimit(limit), Select(AllRows(t, days[..d]), f, DecodeCursor(cursor));
             |collected| >= n && collected == Take(chosen, n)
    ensures PageOf(t, days, f, limit, cursor)
            == Page(collected, EncodeCursor(KeyOf(collected[EffectiveLimit(limit) - 1])))
  {
    FullPageIsSettled(t, days, d, f, DecodeCursor(cursor), EffectiveLimit(limit));
  }

  lemma LastPage(t: Table, days: seq<string>, f: Filter, limit: int, cursor: string, collected: seq<Row>)
    requires collected == Select(AllRows(t, days[..|days|]), f, DecodeCursor(cursor))
    requires |collected| < EffectiveLimit(limit)
    ensures PageOf(t, days, f, limit, cursor) == Page(collected, "")
  {
    assert days[..|days|] == days;
  }

  /** The nested loops, over whatever table t the reads make up. */
  method QueryPartitions(ts: seq<Table>, days: seq<string>, f: Filter, limit: int, cursor: string, ghost t: Table)
    returns (page: Page)
    requires |ts| == |days| && Descending(days) && forall d: nat | d < |days| :: ReadsDay(ts, days, t, d)
    ensures page == PageOf(t, days, f, limit, cursor)
  {
    var n := EffectiveLimit(limit);
    var c := DecodeCursor(cursor);
    var cur := c;
    var collected: seq<Row> := [];
    for d := 0 to |days|
      invariant collected == Select(AllRows(t, days[..d]), f, c) && |collected| < n
      invariant CursorTracks(cur, c, days, d)
    {
      var day := days[d];
      var rows := Partition(ts[d], day);
      assert ReadsDay(ts, days, t, d);
      OneMoreDay(t, days, d, f, c);
      if cur.Some? && Less(cur.value.day, day) {
        NewerDay(rows, day, f, cur.value);
        continue;
      }
      collected := QueryDay(rows, day, f, n, cur, c, collected);
      if |collected| >= n {
        FullPage(t, days, d + 1, f, limit, cursor, collected);
        return Page(collected, EncodeCursor(KeyOf(collected[n - 1])));
      }
      if cur.Some? && day == cur.value.day {
        cur := None;
      }
    }
    LastPage(t, days, f, limit, cursor, collected);
    return Page(collected, "");
  }

  /** With an await before each partition is read. */
  method Query(ts: seq<Table>, days: seq<string>, f: Filter, limit: int, cursor: string) returns (page: Page)
    requires |ts| == |days| && Descending(days) && forall d | 0 <= d < |ts| :: Keyed(ts[d])
    ensures page == PageOf(Seen(ts, days), days, f, limit, cursor)
  {
    SeenIsRead(ts, days);
    page := QueryPartitions(ts, days, f, limit, cursor, Seen(ts, days));
  }
}
