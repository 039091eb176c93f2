/** Chemical-structure rows: the column projection of `parse_chemicals_file` and
    `drop_duplicates(subset=['schembl_chem_id'], keep='first')`. */
module Rows {
  import opened Outcomes

  /** One row of the destination table: `schembl_chem_id`, `smiles`, `std_inchi`, `std_inchikey`. */
  datatype Row = Row(id: string, smiles: string, inchi: string, inchikey: string)

  /** A decompressed chemicals file as the TSV reader sees it: the header and the records. */
  datatype Tsv = Tsv(header: seq<string>, records: seq<seq<string>>)

  const IdColumn := "SureChEMBL ID"
  const SmilesColumn := "SMILES"
  const InchiColumn := "Standard InChi"
  const InchiKeyColumn := "Standard InChiKey"

  /** The position of the first header cell called `name`. */
  function ColumnIndex(header: seq<string>, name: string): (r: Option<nat>)
    ensures r.Some? ==> First(header, name, r.value)
    ensures r.None? <==> name !in header
  {
    if header == [] then None
    else if header[0] == name then Some(0)
    else match ColumnIndex(header[1..], name)
      case None => assert header == [header[0]] + header[1..]; None
      case Some(i) => Some(i + 1)
  }

  /** Position `j` is the first header cell called `name`. */
  predicate First(header: seq<string>, name: string, j: nat) {
    j < |header| && header[j] == name && forall k :: 0 <= k < j ==> header[k] != name
  }

  /** Only one position is the first cell called `name`: the one `ColumnIndex` finds. */
  lemma OnlyFirst(header: seq<string>, name: string)
    requires name in header
    ensures forall j :: First(header, name, j) ==> j == ColumnIndex(header, name).value
  {
  }

  /** A cell of a record; a record shorter than the header reads as empty there. */
  function Cell(record: seq<string>, i: nat): string {
    if i < |record| then record[i] else ""
  }

  predicate HasColumns(t: Tsv) {
    IdColumn in t.header && SmilesColumn in t.header && InchiColumn in t.header && InchiKeyColumn in t.header
  }

  /** `df[['SureChEMBL ID', 'SMILES', 'Standard InChi', 'Standard InChiKey']]` followed by the
      rename to the table's column names: one row per record, in record order. */
  function SelectColumns(t: Tsv): (r: Result<seq<Row>>)
    ensures r.Ok? <==> HasColumns(t)
    ensures r.Err? ==> r.error.MissingColumn? && r.error.column !in t.header
    ensures r.Ok? ==> |r.value| == |t.records|
    ensures r.Ok? ==> forall i, a, b, c, d ::
              0 <= i < |t.records| && First(t.header, IdColumn, a) && First(t.header, SmilesColumn, b) &&
              First(t.header, InchiColumn, c) && First(t.header, InchiKeyColumn, d) ==>
                r.value[i] == Row(Cell(t.records[i], a), Cell(t.records[i], b), Cell(t.records[i], c), Cell(t.records[i], d))
  {
    match (ColumnIndex(t.header, IdColumn), ColumnIndex(t.header, SmilesColumn),
           ColumnIndex(t.header, InchiColumn), ColumnIndex(t.header, InchiKeyColumn))
    case (Some(a), Some(b), Some(c), Some(d)) =>
      OnlyFirst(t.header, IdColumn);
      OnlyFirst(t.header, SmilesColumn);
      OnlyFirst(t.header, InchiColumn);
      OnlyFirst(t.header, InchiKeyColumn);
      Ok(seq(|t.records|, i requires 0 <= i < |t.records| =>
        Row(Cell(t.records[i], a), Cell(t.records[i], b), Cell(t.records[i], c), Cell(t.records[i], d))))
    case (None, _, _, _) => Err(MissingColumn(IdColumn))
    case (_, None, _, _) => Err(MissingColumn(SmilesColumn))
    case (_, _, None, _) => Err(MissingColumn(InchiColumn))
    case (_, _, _, None) => Err(MissingColumn(InchiKeyColumn))
  }

  /** The natural keys occurring in `s`. */
  function Keys(s: seq<Row>): set<string> {
    set r | r in s :: r.id
  }

  predicate KeysDistinct(s: seq<Row>) {
    forall i, j :: 0 <= i < j < |s| ==> s[i].id != s[j].id
  }

  /** The first row of `s` whose key is `k`. */
  function Find(s: seq<Row>, k: string): Option<Row> {
    if s == [] then None
    else if s[0].id == k then Some(s[0])
    else Find(s[1..], k)
  }

  /** `t` is `s` with some elements left out, the rest in their order. */
  predicate IsSubseq<T(==)>(t: seq<T>, s: seq<T>)
    decreases |s|
  {
    if t == [] then true
    else if s == [] then false
    else (t[0] == s[0] && IsSubseq(t[1..], s[1..])) || IsSubseq(t, s[1..])
  }

  /** Keeps the first row for every key that is not in `seen` yet. */
  function DedupFrom(s: seq<Row>, seen: set<string>): seq<Row>
    decreases |s|
  {
    if s == [] then []
    else if s[0].id in seen then DedupFrom(s[1..], seen)
    else [s[0]] + DedupFrom(s[1..], seen + {s[0].id})
  }

  /** `drop_duplicates(subset=['schembl_chem_id'], keep='first')` */
  function DropDuplicates(s: seq<Row>): seq<Row> {
    DedupFrom(s, {})
  }

  lemma KeysCons(a: Row, s: seq<Row>)
    ensures Keys([a] + s) == {a.id} + Keys(s)
  {
    assert forall r :: r in [a] + s <==> r == a || r in s;
  }

  /** A row whose key is new to a list with distinct keys keeps the keys distinct. */
  lemma DistinctCons(a: Row, s: seq<Row>)
    requires KeysDistinct(s) && a.id !in Keys(s)
    ensures KeysDistinct([a] + s)
  {
    var r := [a] + s;
    forall i, j | 0 <= i < j < |r| ensures r[i].id != r[j].id {
      assert r[j] == s[j - 1] && r[j] in s;
      if i > 0 {
        assert r[i] == s[i - 1];
      }
    }
  }

  lemma {:induction false} DedupFromProps(s: seq<Row>, seen: set<string>)
    ensures KeysDistinct(DedupFrom(s, seen))
    ensures Keys(DedupFrom(s, seen)) == Keys(s) - seen
    ensures IsSubseq(DedupFrom(s, seen), s)
    ensures forall i :: 0 <= i < |DedupFrom(s, seen)| ==> Find(s, DedupFrom(s, seen)[i].id) == Some(DedupFrom(s, seen)[i])
    decreases |s|
  {
    if s != [] {
      var r := DedupFrom(s, seen);
      assert s == [s[0]] + s[1..];
      KeysCons(s[0], s[1..]);
      if s[0].id in seen {
        DedupFromProps(s[1..], seen);
        var r' := DedupFrom(s[1..], seen);
        assert r == r';
        forall i | 0 <= i < |r| ensures Find(s, r[i].id) == Some(r[i]) {
          assert r[i] in r';
        }
      } else {
        var seen' := seen + {s[0].id};
        DedupFromProps(s[1..], seen');
        var r' := DedupFrom(s[1..], seen');
        assert r == [s[0]] + r';
        KeysCons(s[0], r');
        DistinctCons(s[0], r');
        forall i | 0 <= i < |r| ensures Find(s, r[i].id) == Some(r[i]) {
          if i > 0 {
            assert r[i] == r'[i - 1] && r[i] in r';
          }
        }
      }
    }
  }

  /** What `drop_duplicates(keep='first')` promises: pairwise distinct keys, every input key
      kept, the survivors in input order, and each survivor the first row with its key. */
  lemma DropDuplicatesSpec(s: seq<Row>)
    ensures KeysDistinct(DropDuplicates(s))
    ensures Keys(DropDuplicates(s)) == Keys(s)
    ensures IsSubseq(DropDuplicates(s), s)
    ensures forall i :: 0 <= i < |DropDuplicates(s)| ==> Find(s, DropDuplicates(s)[i].id) == Some(DropDuplicates(s)[i])
  {
    DedupFromProps(s, {});
  }

  /** Deduplicating a concatenation: the second part only contributes keys the first lacks. */
  lemma {:induction false} DedupFromSplit(x: seq<Row>, y: seq<Row>, seen: set<string>)
    ensures DedupFrom(x + y, seen) == DedupFrom(x, seen) + DedupFrom(y, seen + Keys(x))
    decreases |x|
  {
    if x == [] {
      assert x + y == y;
      assert seen + Keys(x) == seen;
    } else {
      assert (x + y)[0] == x[0];
      assert (x + y)[1..] == x[1..] + y;
      assert x == [x[0]] + x[1..];
      KeysCons(x[0], x[1..]);
      if x[0].id in seen {
        DedupFromSplit(x[1..], y, seen);
        assert seen + Keys(x) == seen + Keys(x[1..]);
      } else {
        DedupFromSplit(x[1..], y, seen + {x[0].id});
        assert seen + {x[0].id} + Keys(x[1..]) == seen + Keys(x);
      }
    }
  }

  /** Deduplicating twice is deduplicating once against both sets of seen keys. */
  lemma {:induction false} DedupFromTwice(s: seq<Row>, inner: set<string>, outer: set<string>)
    ensures DedupFrom(DedupFrom(s, inner), outer) == DedupFrom(s, outer + inner)
    decreases |s|
  {
    if s != [] {
      if s[0].id in inner {
        DedupFromTwice(s[1..], inner, outer);
      } else {
        var r' := DedupFrom(s[1..], inner + {s[0].id});
        assert DedupFrom(s, inner) == [s[0]] + r';
        assert ([s[0]] + r')[1..] == r';
        if s[0].id in outer {
          DedupFromTwice(s[1..], inner + {s[0].id}, outer);
          assert outer + (inner + {s[0].id}) == outer + inner;
        } else {
          DedupFromTwice(s[1..], inner + {s[0].id}, outer + {s[0].id});
          assert outer + {s[0].id} + (inner + {s[0].id}) == outer + inner + {s[0].id};
        }
      }
    }
  }

  /** `drop_duplicates` is idempotent. */
  lemma DropDuplicatesIdempotent(s: seq<Row>)
    ensures DropDuplicates(DropDuplicates(s)) == DropDuplicates(s)
  {
    var none: set<string> := {};
    DedupFromTwice(s, none, none);
    assert none + none == none;
  }

  /** Deduplicating an already deduplicated prefix before appending changes nothing:
      `drop_duplicates(concat([drop_duplicates(a), b])) == drop_duplicates(concat([a, b]))`. */
  lemma DedupPrefix(a: seq<Row>, b: seq<Row>)
    ensures DropDuplicates(DropDuplicates(a) + b) == DropDuplicates(a + b)
  {
    DedupFromSplit(DropDuplicates(a), b, {});
    DedupFromSplit(a, b, {});
    DropDuplicatesIdempotent(a);
    DedupFromProps(a, {});
    assert {} + Keys(DropDuplicates(a)) == {} + Keys(a);
  }

  /** The same for an already deduplicated suffix. */
  lemma DedupSuffix(a: seq<Row>, b: seq<Row>)
    ensures DropDuplicates(a + DropDuplicates(b)) == DropDuplicates(a + b)
  {
    DedupFromSplit(a, DropDuplicates(b), {});
    DedupFromSplit(a, b, {});
    DedupFromTwice(b, {}, {} + Keys(a));
    assert {} + Keys(a) + {} == {} + Keys(a);
  }

  /** `parse_chemicals_file` after decompression: the projection, then the per-file dedup. */
  function ParseChemicals(t: Tsv): (r: Result<seq<Row>>)
    ensures r.Ok? <==> HasColumns(t)
    ensures r.Ok? ==> r.value == DropDuplicates(SelectColumns(t).value)
  {
    match SelectColumns(t)
    case Err(e) => Err(e)
    case Ok(rows) => Ok(DropDuplicates(rows))
  }
}
