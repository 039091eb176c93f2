/** The destination table `schembl_chemical_structure` as `dfloader` and the primary-key
    statements change it. */
module Table {
  import opened Outcomes
  import opened Rows

  /** A stored row and its internal row identifier (`rowid`; on PostgreSQL `ctid`). */
  datatype Entry = Entry(rowid: nat, row: Row)

  /** The database driver, which decides the deduplication statement `dfloader` issues. */
  datatype Driver = Psycopg2 | MySqlDb | OtherDriver

  /** The table's rows and the identifier the next inserted row receives. */
  datatype TableState = TableState(entries: seq<Entry>, nextRowid: nat)

  function EntryKeys(t: seq<Entry>): set<string> {
    set e | e in t :: e.row.id
  }

  predicate EntryKeysDistinct(t: seq<Entry>) {
    forall i, j :: 0 <= i < j < |t| ==> t[i].row.id != t[j].row.id
  }

  /** Row identifiers grow in storage order: later inserts get larger identifiers. */
  predicate Increasing(t: seq<Entry>) {
    forall i, j :: 0 <= i < j < |t| ==> t[i].rowid < t[j].rowid
  }

  predicate Below(t: seq<Entry>, next: nat) {
    forall i :: 0 <= i < |t| ==> t[i].rowid < next
  }

  /** The entries `df.to_sql(..., if_exists='append')` adds: the rows in frame order, with
      fresh identifiers from `next` on. */
  function Numbered(rows: seq<Row>, next: nat): (r: seq<Entry>)
    ensures |r| == |rows| && forall i :: 0 <= i < |rows| ==> r[i] == Entry(next + i, rows[i])
  {
    seq(|rows|, i requires 0 <= i < |rows| => Entry(next + i, rows[i]))
  }

  /** `e` has the least identifier among the entries of `t` with its key. */
  predicate IsMinOfKey(t: seq<Entry>, e: Entry) {
    forall j :: 0 <= j < |t| && t[j].row.id == e.row.id ==> e.rowid <= t[j].rowid
  }

  /** No entry of `t` with the same key has a greater identifier. */
  predicate IsMaxOfKey(t: seq<Entry>, e: Entry) {
    forall j :: 0 <= j < |t| && t[j].row.id == e.row.id ==> t[j].rowid <= e.rowid
  }

  predicate Keeps(t: seq<Entry>, e: Entry, keepMin: bool) {
    if keepMin then IsMinOfKey(t, e) else IsMaxOfKey(t, e)
  }

  /** The entries of `s`, in order, that survive a deletion over the whole table `t`. */
  function Survivors(s: seq<Entry>, t: seq<Entry>, keepMin: bool): seq<Entry> {
    if s == [] then []
    else (if Keeps(t, s[0], keepMin) then [s[0]] else []) + Survivors(s[1..], t, keepMin)
  }

  /** `DELETE FROM t WHERE rowid NOT IN (SELECT MIN(rowid) FROM t GROUP BY key)` */
  function DeleteAllButMin(t: seq<Entry>): seq<Entry> {
    Survivors(t, t, true)
  }

  /** `DELETE FROM t T1 USING t T2 WHERE T1.ctid < T2.ctid AND T1.key = T2.key` */
  function DeleteAllButMax(t: seq<Entry>): seq<Entry> {
    Survivors(t, t, false)
  }

  /** The statement `dfloader` issues for a driver. */
  function Reconcile(driver: Driver, t: seq<Entry>): seq<Entry> {
    if driver == Psycopg2 || driver == MySqlDb then DeleteAllButMax(t) else DeleteAllButMin(t)
  }

  /** `dfloader(df, ...)`: append the frame, then deduplicate the whole table. */
  function LoadRows(s: TableState, rows: seq<Row>, driver: Driver): TableState {
    TableState(Reconcile(driver, s.entries + Numbered(rows, s.nextRowid)), s.nextRowid + |rows|)
  }

  lemma {:induction false} SurvivorsMembers(s: seq<Entry>, t: seq<Entry>, keepMin: bool)
    ensures forall e :: e in Survivors(s, t, keepMin) <==> e in s && Keeps(t, e, keepMin)
    ensures Increasing(s) ==> Increasing(Survivors(s, t, keepMin))
  {
    if s != [] {
      SurvivorsMembers(s[1..], t, keepMin);
      assert s == [s[0]] + s[1..];
      var rest := Survivors(s[1..], t, keepMin);
      if Increasing(s) && Keeps(t, s[0], keepMin) {
        assert forall e :: e in rest ==> e in s[1..];
        var u := [s[0]] + rest;
        forall i, j | 0 <= i < j < |u| ensures u[i].rowid < u[j].rowid {
          assert u[j] in rest;
          if i > 0 {
            assert u[i] == rest[i - 1];
          }
        }
      }
    }
  }

  /** Index of the first entry of `t` with key `k`. */
  function FirstWithKey(t: seq<Entry>, k: string): (i: nat)
    requires k in EntryKeys(t)
    ensures i < |t| && t[i].row.id == k && forall j :: 0 <= j < i ==> t[j].row.id != k
  {
    if t[0].row.id == k then 0
    else
      assert k in EntryKeys(t[1..]) by {
        var e :| e in t && e.row.id == k;
        assert e != t[0];
      }
      1 + FirstWithKey(t[1..], k)
  }

  /** Index of the last entry of `t` with key `k`. */
  function LastWithKey(t: seq<Entry>, k: string): (i: nat)
    requires k in EntryKeys(t)
    ensures i < |t| && t[i].row.id == k && forall j :: i < j < |t| ==> t[j].row.id != k
  {
    if t[|t| - 1].row.id == k then |t| - 1
    else
      var init := t[..|t| - 1];
      assert k in EntryKeys(init) by {
        var e :| e in t && e.row.id == k;
        assert e != t[|t| - 1];
        assert t == init + [t[|t| - 1]];
      }
      LastWithKey(init, k)
  }

  /** What either deletion leaves: one entry per key, every key kept, each survivor the least
      (MIN(rowid)) or the greatest (ctid) identifier of its key, in storage order. */
  lemma ReconcileSpec(t: seq<Entry>, keepMin: bool)
    requires Increasing(t)
    ensures EntryKeysDistinct(Survivors(t, t, keepMin))
    ensures EntryKeys(Survivors(t, t, keepMin)) == EntryKeys(t)
    ensures forall e :: e in Survivors(t, t, keepMin) <==> e in t && Keeps(t, e, keepMin)
    ensures Increasing(Survivors(t, t, keepMin))
  {
    SurvivorsMembers(t, t, keepMin);
    SurvivorsDistinct(t, keepMin);
    SurvivorsKeys(t, keepMin);
  }

  lemma SurvivorsDistinct(t: seq<Entry>, keepMin: bool)
    requires Increasing(t)
    ensures EntryKeysDistinct(Survivors(t, t, keepMin))
  {
    var u := Survivors(t, t, keepMin);
    SurvivorsMembers(t, t, keepMin);
    forall i, j | 0 <= i < j < |u| ensures u[i].row.id != u[j].row.id {
      assert u[i] in u && u[j] in u;
      KeptSame(t, u[i], u[j], keepMin);
    }
  }

  lemma SurvivorsKeys(t: seq<Entry>, keepMin: bool)
    requires Increasing(t)
    ensures EntryKeys(Survivors(t, t, keepMin)) == EntryKeys(t)
  {
    var u := Survivors(t, t, keepMin);
    SurvivorsMembers(t, t, keepMin);
    forall k | k in EntryKeys(t) ensures k in EntryKeys(u) {
      var i := if keepMin then FirstWithKey(t, k) else LastWithKey(t, k);
      assert t[i] in t;
      assert Keeps(t, t[i], keepMin);
      assert t[i] in u;
    }
    forall k | k in EntryKeys(u) ensures k in EntryKeys(t) {
      var e :| e in u && e.row.id == k;
    }
  }

  /** Two entries kept for the same key are the same row of storage. */
  lemma KeptSame(t: seq<Entry>, a: Entry, b: Entry, keepMin: bool)
    requires a in t && b in t && Keeps(t, a, keepMin) && Keeps(t, b, keepMin)
    ensures a.row.id == b.row.id ==> a.rowid == b.rowid
  {
    var ia :| 0 <= ia < |t| && t[ia] == a;
    var ib :| 0 <= ib < |t| && t[ib] == b;
  }

  lemma {:induction false} SurvivorsAll(s: seq<Entry>, t: seq<Entry>, keepMin: bool)
    requires forall e :: e in s ==> Keeps(t, e, keepMin)
    ensures Survivors(s, t, keepMin) == s
  {
    if s != [] {
      assert s[0] in s;
      assert forall e :: e in s[1..] ==> e in s;
      SurvivorsAll(s[1..], t, keepMin);
    }
  }

  /** A table with one entry per key is left as it is: running the deletion again changes nothing. */
  lemma ReconcileIdempotent(t: seq<Entry>, keepMin: bool)
    requires Increasing(t)
    ensures Survivors(Survivors(t, t, keepMin), Survivors(t, t, keepMin), keepMin) == Survivors(t, t, keepMin)
  {
    var u := Survivors(t, t, keepMin);
    ReconcileSpec(t, keepMin);
    forall e | e in u ensures Keeps(u, e, keepMin) {
      var i :| 0 <= i < |u| && u[i] == e;
      assert forall j :: 0 <= j < |u| && u[j].row.id == e.row.id ==> j == i;
    }
    SurvivorsAll(u, u, keepMin);
  }

  lemma NumberedIncreasing(t: seq<Entry>, rows: seq<Row>, next: nat)
    requires Increasing(t) && Below(t, next)
    ensures Increasing(t + Numbered(rows, next)) && Below(t + Numbered(rows, next), next + |rows|)
  {
    var n := Numbered(rows, next);
    var c := t + n;
    forall i, j | 0 <= i < j < |c| ensures c[i].rowid < c[j].rowid {
      if j >= |t| && i < |t| {
        assert c[i] == t[i];
      }
    }
  }

  lemma EntryKeysAppend(t: seq<Entry>, rows: seq<Row>, next: nat)
    ensures EntryKeys(t + Numbered(rows, next)) == EntryKeys(t) + Keys(rows)
  {
    var n := Numbered(rows, next);
    forall k | k in Keys(rows) ensures k in EntryKeys(t + n) {
      var r :| r in rows && r.id == k;
      var i :| 0 <= i < |rows| && rows[i] == r;
      assert (t + n)[|t| + i] == n[i];
    }
    forall k | k in EntryKeys(t + n) ensures k in EntryKeys(t) + Keys(rows) {
      var e :| e in t + n && e.row.id == k;
      if e !in t {
        var i :| 0 <= i < |n| && n[i] == e;
        assert rows[i] in rows;
      }
    }
  }

  /** Append followed by the deletion: each key once, the keys those of the table and of the
      frame together, identifiers still increasing and below the counter. */
  lemma LoadRowsSpec(s: TableState, rows: seq<Row>, driver: Driver)
    requires Increasing(s.entries) && Below(s.entries, s.nextRowid)
    ensures var u := LoadRows(s, rows, driver).entries;
      && EntryKeysDistinct(u)
      && EntryKeys(u) == EntryKeys(s.entries) + Keys(rows)
      && Increasing(u) && Below(u, s.nextRowid + |rows|)
  {
    var c := s.entries + Numbered(rows, s.nextRowid);
    NumberedIncreasing(s.entries, rows, s.nextRowid);
    EntryKeysAppend(s.entries, rows, s.nextRowid);
    ReconcileSpec(c, driver == OtherDriver);
    var u := Survivors(c, c, driver == OtherDriver);
    forall i | 0 <= i < |u| ensures u[i].rowid < s.nextRowid + |rows| {
      assert u[i] in u;
    }
  }

  /** With MIN(rowid) a key the table already holds keeps its stored row: the incoming
      duplicates are the ones deleted. */
  lemma LoadRowsExistingWin(s: TableState, rows: seq<Row>)
    requires Increasing(s.entries) && Below(s.entries, s.nextRowid)
    ensures forall e :: e in LoadRows(s, rows, OtherDriver).entries && e.row.id in EntryKeys(s.entries) ==> e in s.entries
  {
    var c := s.entries + Numbered(rows, s.nextRowid);
    NumberedIncreasing(s.entries, rows, s.nextRowid);
    SurvivorsMembers(c, c, true);
    forall e | e in Survivors(c, c, true) && e.row.id in EntryKeys(s.entries) ensures e in s.entries {
      var f :| f in s.entries && f.row.id == e.row.id;
      var j :| 0 <= j < |s.entries| && s.entries[j] == f;
      assert c[j] == f;
      var i :| 0 <= i < |c| && c[i] == e;
      assert i <= j;
      assert c[i] == s.entries[i];
    }
  }

  /** With ctid (psycopg2, MySQLdb) an incoming row replaces the stored row with its key. */
  lemma LoadRowsIncomingWin(s: TableState, rows: seq<Row>, driver: Driver)
    requires driver != OtherDriver
    requires Increasing(s.entries) && Below(s.entries, s.nextRowid)
    ensures forall e :: e in LoadRows(s, rows, driver).entries && e.row.id in Keys(rows) ==> e.rowid >= s.nextRowid
  {
    var c := s.entries + Numbered(rows, s.nextRowid);
    SurvivorsMembers(c, c, false);
    forall e | e in Survivors(c, c, false) && e.row.id in Keys(rows) ensures e.rowid >= s.nextRowid {
      var r :| r in rows && r.id == e.row.id;
      var i :| 0 <= i < |rows| && rows[i] == r;
      assert c[|s.entries| + i] == Entry(s.nextRowid + i, r);
    }
  }

  lemma {:induction false} DistinctCount(t: seq<Entry>)
    requires EntryKeysDistinct(t)
    ensures |EntryKeys(t)| == |t|
  {
    if t != [] {
      var init := t[..|t| - 1];
      var last := t[|t| - 1];
      assert forall i :: 0 <= i < |init| ==> init[i] == t[i];
      DistinctCount(init);
      assert t == init + [last];
      EntryKeysSnoc(init, last);
      forall e | e in init
        ensures e.row.id != last.row.id
      {
        var i :| 0 <= i < |init| && init[i] == e;
      }
    }
  }

  lemma EntryKeysSnoc(t: seq<Entry>, e: Entry)
    ensures EntryKeys(t + [e]) == EntryKeys(t) + {e.row.id}
  {
    assert forall x :: x in t + [e] <==> x in t || x == e;
  }

  /** The stored rows, in storage order, without their identifiers. */
  function RowsOf(t: seq<Entry>): (r: seq<Row>)
    ensures |r| == |t| && forall i :: 0 <= i < |t| ==> r[i] == t[i].row
  {
    seq(|t|, i requires 0 <= i < |t| => t[i].row)
  }

  lemma {:induction false} SurvivorsSplit(a: seq<Entry>, b: seq<Entry>, t: seq<Entry>, keepMin: bool)
    ensures Survivors(a + b, t, keepMin) == Survivors(a, t, keepMin) + Survivors(b, t, keepMin)
  {
    if a != [] {
      var head := if Keeps(t, a[0], keepMin) then [a[0]] else [];
      assert (a + b)[0] == a[0];
      assert (a + b)[1..] == a[1..] + b;
      SurvivorsSplit(a[1..], b, t, keepMin);
      calc {
        Survivors(a + b, t, keepMin);
        head + Survivors(a[1..] + b, t, keepMin);
        head + (Survivors(a[1..], t, keepMin) + Survivors(b, t, keepMin));
        (head + Survivors(a[1..], t, keepMin)) + Survivors(b, t, keepMin);
      }
    } else {
      assert a + b == b;
    }
  }

  lemma {:induction false} SurvivorsNone(s: seq<Entry>, t: seq<Entry>, keepMin: bool)
    requires forall e :: e in s ==> !Keeps(t, e, keepMin)
    ensures Survivors(s, t, keepMin) == []
  {
    if s != [] {
      assert s[0] in s;
      assert forall e :: e in s[1..] ==> e in s;
      SurvivorsNone(s[1..], t, keepMin);
    }
  }

  /** The entries a frame is appended as: its keys, fresh identifiers from `n` on. */
  lemma NumberedFacts(rows: seq<Row>, n: nat)
    ensures EntryKeys(Numbered(rows, n)) == Keys(rows)
    ensures forall j :: 0 <= j < |rows| ==> Numbered(rows, n)[j].rowid >= n
    ensures Below(Numbered(rows, n), n + |rows|)
    ensures KeysDistinct(rows) ==> EntryKeysDistinct(Numbered(rows, n))
  {
    var b := Numbered(rows, n);
    forall k | k in Keys(rows) ensures k in EntryKeys(b) {
      var r :| r in rows && r.id == k;
      var i :| 0 <= i < |rows| && rows[i] == r;
      assert b[i] in b;
    }
    forall k | k in EntryKeys(b) ensures k in Keys(rows) {
      var e :| e in b && e.row.id == k;
      var i :| 0 <= i < |b| && b[i] == e;
      assert rows[i] in rows;
    }
  }

  /** Entries older than every appended one, with one entry per key, keep the least identifier
      of their key. */
  lemma OldKeptMin(a: seq<Entry>, b: seq<Entry>, m: nat)
    requires EntryKeysDistinct(a) && Below(a, m)
    requires forall j :: 0 <= j < |b| ==> b[j].rowid >= m
    ensures forall e :: e in a ==> Keeps(a + b, e, true)
  {
    forall e | e in a ensures IsMinOfKey(a + b, e) {
      var i :| 0 <= i < |a| && a[i] == e;
      forall j | 0 <= j < |a + b| && (a + b)[j].row.id == e.row.id ensures e.rowid <= (a + b)[j].rowid {
        if j < |a| {
          assert (a + b)[j] == a[j];
        } else {
          assert (a + b)[j] == b[j - |a|];
        }
      }
    }
  }

  /** An appended entry whose key is already stored does not have its key's least identifier. */
  lemma NewDroppedMin(a: seq<Entry>, b: seq<Entry>, m: nat)
    requires Below(a, m)
    requires forall j :: 0 <= j < |b| ==> b[j].rowid >= m
    ensures forall e :: e in b && e.row.id in EntryKeys(a) ==> !Keeps(a + b, e, true)
  {
    forall e | e in b && e.row.id in EntryKeys(a) ensures !IsMinOfKey(a + b, e) {
      var i :| 0 <= i < |b| && b[i] == e;
      var f :| f in a && f.row.id == e.row.id;
      var j :| 0 <= j < |a| && a[j] == f;
      assert (a + b)[j] == f;
    }
  }

  /** Appended entries with one entry per key, newer than every stored one, keep the greatest
      identifier of their key. */
  lemma NewKeptMax(a: seq<Entry>, b: seq<Entry>, m: nat)
    requires EntryKeysDistinct(b) && Below(a, m)
    requires forall j :: 0 <= j < |b| ==> b[j].rowid >= m
    ensures forall e :: e in b ==> Keeps(a + b, e, false)
  {
    forall e | e in b ensures IsMaxOfKey(a + b, e) {
      var i :| 0 <= i < |b| && b[i] == e;
      forall j | 0 <= j < |a + b| && (a + b)[j].row.id == e.row.id ensures (a + b)[j].rowid <= e.rowid {
        if j < |a| {
          assert (a + b)[j] == a[j];
        } else {
          assert (a + b)[j] == b[j - |a|];
        }
      }
    }
  }

  /** A stored entry whose key is appended again does not have its key's greatest identifier. */
  lemma OldDroppedMax(a: seq<Entry>, b: seq<Entry>, m: nat)
    requires Below(a, m)
    requires forall j :: 0 <= j < |b| ==> b[j].rowid >= m
    ensures forall e :: e in a && e.row.id in EntryKeys(b) ==> !Keeps(a + b, e, false)
  {
    forall e | e in a && e.row.id in EntryKeys(b) ensures !IsMaxOfKey(a + b, e) {
      var f :| f in b && f.row.id == e.row.id;
      var j :| 0 <= j < |b| && b[j] == f;
      assert (a + b)[|a| + j] == f;
    }
  }

  /** A stored entry, one per key, whose key is not appended keeps its key's greatest identifier. */
  lemma OldKeptMax(a: seq<Entry>, b: seq<Entry>)
    requires EntryKeysDistinct(a)
    ensures forall e :: e in a && e.row.id !in EntryKeys(b) ==> Keeps(a + b, e, false)
  {
    forall e | e in a && e.row.id !in EntryKeys(b) ensures IsMaxOfKey(a + b, e) {
      var i :| 0 <= i < |a| && a[i] == e;
      forall j | 0 <= j < |a + b| && (a + b)[j].row.id == e.row.id ensures (a + b)[j].rowid <= e.rowid {
        if j < |a| {
          assert (a + b)[j] == a[j];
        }
      }
    }
  }

  /** Loading the same deduplicated frame a second time leaves the rows the first load left:
      with MIN(rowid) the table is exactly as after the first load; with ctid the new copies
      replace the first load's copies in the same place, so only the identifiers change. */
  lemma LoadRowsTwice(s: TableState, rows: seq<Row>, driver: Driver)
    requires Increasing(s.entries) && Below(s.entries, s.nextRowid) && KeysDistinct(rows)
    ensures RowsOf(LoadRows(LoadRows(s, rows, driver), rows, driver).entries) == RowsOf(LoadRows(s, rows, driver).entries)
    ensures driver == OtherDriver ==> LoadRows(LoadRows(s, rows, driver), rows, driver).entries == LoadRows(s, rows, driver).entries
  {
    if driver == OtherDriver {
      LoadTwiceMin(s, rows);
    } else {
      LoadTwiceMax(s, rows, driver);
    }
  }

  lemma LoadTwiceMin(s: TableState, rows: seq<Row>)
    requires Increasing(s.entries) && Below(s.entries, s.nextRowid)
    ensures LoadRows(LoadRows(s, rows, OtherDriver), rows, OtherDriver).entries == LoadRows(s, rows, OtherDriver).entries
  {
    var s1 := LoadRows(s, rows, OtherDriver);
    var t1 := s1.entries;
    var n2 := Numbered(rows, s1.nextRowid);
    LoadRowsSpec(s, rows, OtherDriver);
    NumberedFacts(rows, s1.nextRowid);
    OldKeptMin(t1, n2, s1.nextRowid);
    NewDroppedMin(t1, n2, s1.nextRowid);
    SurvivorsSplit(t1, n2, t1 + n2, true);
    SurvivorsAll(t1, t1 + n2, true);
    SurvivorsNone(n2, t1 + n2, true);
  }

  lemma RowsOfAppend(a: seq<Entry>, b: seq<Entry>)
    ensures RowsOf(a + b) == RowsOf(a) + RowsOf(b)
  {
  }

  lemma RowsOfNumbered(rows: seq<Row>, n: nat)
    ensures RowsOf(Numbered(rows, n)) == rows
  {
  }

  lemma LoadTwiceMax(s: TableState, rows: seq<Row>, driver: Driver)
    requires driver != OtherDriver
    requires Increasing(s.entries) && Below(s.entries, s.nextRowid) && KeysDistinct(rows)
    ensures RowsOf(LoadRows(LoadRows(s, rows, driver), rows, driver).entries) == RowsOf(LoadRows(s, rows, driver).entries)
  {
    var n := s.nextRowid;
    var m := n + |rows|;
    var n1 := Numbered(rows, n);
    var n2 := Numbered(rows, m);
    var f := FirstLoadMax(s.entries, rows, n);
    var s1 := LoadRows(s, rows, driver);
    assert s1 == TableState(f + n1, m);
    LoadRowsSpec(s, rows, driver);
    SecondLoadMax(f, rows, n, m);
    assert LoadRows(s1, rows, driver).entries == f + n2;
    RowsOfAppend(f, n1);
    RowsOfAppend(f, n2);
    RowsOfNumbered(rows, n);
    RowsOfNumbered(rows, m);
  }

  /** The first ctid load keeps every appended entry and, of the stored ones, only some whose key
      the frame does not have. */
  lemma FirstLoadMax(t: seq<Entry>, rows: seq<Row>, n: nat) returns (f: seq<Entry>)
    requires Below(t, n) && KeysDistinct(rows)
    ensures Survivors(t + Numbered(rows, n), t + Numbered(rows, n), false) == f + Numbered(rows, n)
    ensures forall e :: e in f ==> e.row.id !in Keys(rows)
  {
    var n1 := Numbered(rows, n);
    var c1 := t + n1;
    NumberedFacts(rows, n);
    NewKeptMax(t, n1, n);
    OldDroppedMax(t, n1, n);
    SurvivorsAll(n1, c1, false);
    SurvivorsSplit(t, n1, c1, false);
    SurvivorsMembers(t, c1, false);
    f := Survivors(t, c1, false);
  }

  /** The second ctid load keeps the stored entries of other keys, drops the first load's
      entries and keeps the new ones. */
  lemma SecondLoadMax(f: seq<Entry>, rows: seq<Row>, n: nat, m: nat)
    requires EntryKeysDistinct(f + Numbered(rows, n)) && Below(f + Numbered(rows, n), m)
    requires forall e :: e in f ==> e.row.id !in Keys(rows)
    requires KeysDistinct(rows)
    ensures Survivors(f + Numbered(rows, n) + Numbered(rows, m), f + Numbered(rows, n) + Numbered(rows, m), false)
         == f + Numbered(rows, m)
  {
    var n1 := Numbered(rows, n);
    var n2 := Numbered(rows, m);
    var t1 := f + n1;
    var c2 := t1 + n2;
    NumberedFacts(rows, n);
    NumberedFacts(rows, m);
    OldKeptMax(t1, n2);
    OldDroppedMax(t1, n2, m);
    NewKeptMax(t1, n2, m);
    assert forall e :: e in f ==> e in t1;
    assert forall e :: e in n1 ==> e in t1 && e.row.id in EntryKeys(n2);
    SurvivorsSplit(t1, n2, c2, false);
    SurvivorsSplit(f, n1, c2, false);
    SurvivorsAll(f, c2, false);
    SurvivorsNone(n1, c2, false);
    SurvivorsAll(n2, c2, false);
    calc {
      Survivors(c2, c2, false);
      Survivors(t1, c2, false) + Survivors(n2, c2, false);
      (Survivors(f, c2, false) + Survivors(n1, c2, false)) + Survivors(n2, c2, false);
      (f + []) + n2;
      { assert f + [] == f; }
      f + n2;
    }
  }

  /** The table the client writes to. `pkPresent` says whether the primary-key constraint on
      `schembl_chem_id` is attached. */
  class ChemTable {
    var entries: seq<Entry>
    var nextRowid: nat
    var pkPresent: bool

    ghost predicate Valid()
      reads this
    {
      && Increasing(entries)
      && Below(entries, nextRowid)
      && (pkPresent ==> EntryKeysDistinct(entries))
    }

    function Snapshot(): TableState
      reads this
    {
      TableState(entries, nextRowid)
    }

    /** The table `meta.create_all` creates: empty, with the key declared primary. */
    constructor ()
      ensures Valid() && entries == [] && nextRowid == 0 && pkPresent
    {
      entries := [];
      nextRowid := 0;
      pkPresent := true;
    }

    /** `count_rows` */
    function Count(): nat
      reads this
    {
      |entries|
    }

    /** `ALTER TABLE ... DROP CONSTRAINT ..._pkey`; when there is no constraint the failure is
        logged and the run goes on. */
    method DropPk() returns (dropped: bool)
      requires Valid()
      modifies this
      ensures Valid()
      ensures dropped == old(pkPresent) && !pkPresent
      ensures entries == old(entries) && nextRowid == old(nextRowid)
    {
      dropped := pkPresent;
      pkPresent := false;
    }

    /** `ALTER TABLE ... ADD PRIMARY KEY (schembl_chem_id)`: fails when a constraint is
        attached already or when a key occurs twice. */
    method AddPk() returns (r: Result<()>)
      requires Valid()
      modifies this
      ensures Valid()
      ensures r.Ok? <==> !old(pkPresent) && EntryKeysDistinct(old(entries))
      ensures r.Err? ==> r.error == PrimaryKey
      ensures pkPresent == (old(pkPresent) || r.Ok?)
      ensures entries == old(entries) && nextRowid == old(nextRowid)
    {
      if pkPresent || !EntryKeysDistinct(entries) {
        return Err(PrimaryKey);
      }
      pkPresent := true;
      return Ok(());
    }

    /** `df.to_sql(tbl_name, engine, if_exists='append')`: the key constraint, when attached,
        rejects a frame that would repeat a key. */
    method Append(rows: seq<Row>) returns (r: Result<()>)
      requires Valid()
      modifies this
      ensures Valid()
      ensures r.Ok? <==> !old(pkPresent) || EntryKeysDistinct(old(entries) + Numbered(rows, old(nextRowid)))
      ensures r.Err? ==> r.error == PrimaryKey && entries == old(entries) && nextRowid == old(nextRowid)
      ensures r.Ok? ==> entries == old(entries) + Numbered(rows, old(nextRowid)) && nextRowid == old(nextRowid) + |rows|
      ensures pkPresent == old(pkPresent)
    {
      var added := entries + Numbered(rows, nextRowid);
      if pkPresent && !EntryKeysDistinct(added) {
        return Err(PrimaryKey);
      }
      NumberedIncreasing(entries, rows, nextRowid);
      entries := added;
      nextRowid := nextRowid + |rows|;
      return Ok(());
    }

    /** The deduplication statement of `dfloader` for `driver`. */
    method Deduplicate(driver: Driver)
      requires Valid()
      modifies this
      ensures Valid()
      ensures entries == Reconcile(driver, old(entries))
      ensures nextRowid == old(nextRowid) && pkPresent == old(pkPresent)
    {
      var u := Reconcile(driver, entries);
      ReconcileSpec(entries, driver == OtherDriver);
      forall i | 0 <= i < |u| ensures u[i].rowid < nextRowid {
        assert u[i] in u;
      }
      entries := u;
    }

    /** `dfloader(df, engine, tbl_name, unique_col)` with the constraint dropped beforehand,
        as both callers do. */
    method Load(rows: seq<Row>, driver: Driver)
      requires Valid() && !pkPresent
      modifies this
      ensures Valid() && !pkPresent
      ensures Snapshot() == LoadRows(old(Snapshot()), rows, driver)
    {
      var ok := Append(rows);
      Deduplicate(driver);
    }
  }
}
