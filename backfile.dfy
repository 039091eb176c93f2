/** `load_backfile`: load every year directory of the back file whose name falls in a range. */
module Backfile {
  import opened Outcomes
  import opened Text
  import opened Rows
  import opened Ftp
  import opened Table

  const BackfileRoot := "data/external/backfile"
  const BackfileSuffix := ".tsv.gz"

  /** `start_year <= int(name.split('_')[0]) <= end_year`; `None` when the prefix is not an
      integer, where the source raises. */
  function InYearRange(name: string, start: int, end: int): (r: Option<bool>)
    ensures r.Some? <==> ParseInt(BeforeFirst(name, '_')).Some?
    ensures r.Some? ==> (r.value <==> start <= ParseInt(BeforeFirst(name, '_')).value <= end)
    ensures r == Some(true) ==> start <= end
  {
    match ParseInt(BeforeFirst(name, '_'))
    case None => None
    case Some(y) => Some(start <= y && y <= end)
  }

  /** `os.path.join(backfile_dir, name)`: an absolute name replaces the root. */
  function YearPath(name: string): (r: string)
    ensures name != [] && name[0] == '/' ==> r == name
    ensures !(name != [] && name[0] == '/') ==>
              StartsWith(r, BackfileRoot + "/") && EndsWith(r, name) && |r| == |BackfileRoot| + 1 + |name|
  {
    if name != [] && name[0] == '/' then name else BackfileRoot + "/" + name
  }

  /** The per-file frames of a year directory, concatenated in listing order; names without
      the `.tsv.gz` suffix are skipped and the first failing file ends it. */
  function YearFrame(remote: Remote, path: string, names: seq<string>): Result<seq<Row>> {
    if names == [] then Ok([])
    else match YearFrame(remote, path, names[..|names| - 1])
      case Err(e) => Err(e)
      case Ok(acc) =>
        var name := names[|names| - 1];
        if !EndsWith(name, BackfileSuffix) then Ok(acc)
        else match ReadChemicals(remote, path, name)
          case Err(e) => Err(e)
          case Ok(rows) => Ok(acc + rows)
  }

  /** The names of a year listing that end with `.tsv.gz`, in listing order. */
  function BackfileFiles(names: seq<string>): seq<string> {
    if names == [] then []
    else BackfileFiles(names[..|names| - 1]) + (if EndsWith(names[|names| - 1], BackfileSuffix) then [names[|names| - 1]] else [])
  }

  /** The filter keeps exactly the `.tsv.gz` names. */
  lemma {:induction false} BackfileFilesMembers(names: seq<string>)
    ensures forall n :: n in BackfileFiles(names) <==> n in names && EndsWith(n, BackfileSuffix)
  {
    if names != [] {
      var init := names[..|names| - 1];
      BackfileFilesMembers(init);
      assert names == init + [names[|names| - 1]];
    }
  }

  /** Only `.tsv.gz` names are read: the frame of a listing is the frame of its `.tsv.gz`
      names alone. */
  lemma {:induction false} YearFrameReadsOnlyTsv(remote: Remote, path: string, names: seq<string>)
    ensures YearFrame(remote, path, names) == YearFrame(remote, path, BackfileFiles(names))
  {
    if names != [] {
      var init := names[..|names| - 1];
      var last := names[|names| - 1];
      YearFrameReadsOnlyTsv(remote, path, init);
      var f := BackfileFiles(names);
      var fi := BackfileFiles(init);
      if EndsWith(last, BackfileSuffix) {
        assert f == fi + [last];
        assert f[..|f| - 1] == fi && f[|f| - 1] == last;
      } else {
        assert f == fi;
      }
    }
  }

  /** One year of the loop: out of range or empty years leave the table alone; otherwise the
      year's frame, deduplicated, goes through `dfloader`. */
  function YearStep(remote: Remote, start: int, end: int, driver: Driver, s: TableState, name: string): Result<TableState> {
    match InYearRange(name, start, end)
    case None => Err(BadYear(name))
    case Some(false) => Ok(s)
    case Some(true) =>
      match List(remote, YearPath(name))
      case Err(e) => Err(e)
      case Ok(files) =>
        if files == [] then Ok(s)
        else match YearFrame(remote, YearPath(name), files)
          case Err(e) => Err(e)
          case Ok(frame) => if frame == [] then Ok(s) else Ok(LoadRows(s, DropDuplicates(frame), driver))
  }

  /** The table after the years of a listing, and the error that ended the loop early, if any:
      years loaded before the error stay loaded. */
  datatype Run = Run(state: TableState, error: Option<Error>)

  function Years(remote: Remote, start: int, end: int, driver: Driver, s: TableState, names: seq<string>): Run {
    if names == [] then Run(s, None)
    else
      var prev := Years(remote, start, end, driver, s, names[..|names| - 1]);
      if prev.error.Some? then prev
      else match YearStep(remote, start, end, driver, prev.state, names[|names| - 1])
        case Err(e) => Run(prev.state, Some(e))
        case Ok(next) => Run(next, None)
  }

  lemma {:induction false} YearsErrorSticks(remote: Remote, start: int, end: int, driver: Driver, s: TableState, names: seq<string>, i: nat)
    requires i <= |names| && Years(remote, start, end, driver, s, names[..i]).error.Some?
    ensures Years(remote, start, end, driver, s, names) == Years(remote, start, end, driver, s, names[..i])
  {
    if i < |names| {
      assert names[..|names| - 1][..i] == names[..i];
      YearsErrorSticks(remote, start, end, driver, s, names[..|names| - 1], i);
    } else {
      assert names[..i] == names;
    }
  }

  lemma DigitsHaveNoUnderscore(y: int)
    ensures '_' !in IntToString(y)
  {
    var n: nat := if y < 0 then -y else y;
    var ds := NatToString(n);
    assert forall j :: 0 <= j < |ds| ==> ds[j] != '_';
    if y < 0 {
      assert IntToString(y) == "-" + ds;
      assert forall j :: 0 <= j < |IntToString(y)| ==> IntToString(y)[j] != '_';
    }
  }

  /** A directory named after a year, with or without an `_` suffix, is in range exactly when
      its year is. */
  lemma YearNameInRange(y: int, rest: string, start: int, end: int)
    ensures InYearRange(IntToString(y), start, end) == Some(start <= y <= end)
    ensures InYearRange(IntToString(y) + "_" + rest, start, end) == Some(start <= y <= end)
  {
    var ys := IntToString(y);
    DigitsHaveNoUnderscore(y);
    ParseIntToString(y);
    var name := ys + "_" + rest;
    IndexOfSkip(ys, [], '_');
    assert ys + [] == ys;
    assert ys[..|ys|] == ys;
    IndexOfSkip(ys, "_" + rest, '_');
    assert name == ys + ("_" + rest);
    assert name[..|ys|] == ys;
  }

  /** A year directory outside the range is skipped: the table is left as it is. */
  lemma OutOfRangeYearSkipped(remote: Remote, start: int, end: int, driver: Driver, s: TableState, y: int, rest: string)
    requires !(start <= y <= end)
    ensures YearStep(remote, start, end, driver, s, IntToString(y)) == Ok(s)
    ensures YearStep(remote, start, end, driver, s, IntToString(y) + "_" + rest) == Ok(s)
  {
    YearNameInRange(y, rest, start, end);
  }

  /** Every step keeps identifiers ordered and below the counter; a step that loads leaves
      each key once, and no step loses a key. */
  lemma {:induction false} YearsKeepTable(remote: Remote, start: int, end: int, driver: Driver, s: TableState, names: seq<string>)
    requires Increasing(s.entries) && Below(s.entries, s.nextRowid)
    ensures var r := Years(remote, start, end, driver, s, names).state;
      && Increasing(r.entries) && Below(r.entries, r.nextRowid)
      && EntryKeys(s.entries) <= EntryKeys(r.entries)
      && (r != s ==> EntryKeysDistinct(r.entries))
  {
    if names != [] {
      YearsKeepTable(remote, start, end, driver, s, names[..|names| - 1]);
      var prev := Years(remote, start, end, driver, s, names[..|names| - 1]);
      if prev.error.None? {
        var step := YearStep(remote, start, end, driver, prev.state, names[|names| - 1]);
        if step.Ok? && step.value != prev.state {
          var name := names[|names| - 1];
          var frame := YearFrame(remote, YearPath(name), List(remote, YearPath(name)).value).value;
          LoadRowsSpec(prev.state, DropDuplicates(frame), driver);
        }
      }
    }
  }

  /** The files of one year directory: the inner loop of `load_backfile`. */
  method ReadYear(remote: Remote, path: string, files: seq<string>) returns (r: Result<seq<Row>>)
    ensures r == YearFrame(remote, path, files)
  {
    var acc: seq<Row> := [];
    for i := 0 to |files|
      invariant YearFrame(remote, path, files[..i]) == Ok(acc)
    {
      assert files[..i + 1][..i] == files[..i];
      if EndsWith(files[i], BackfileSuffix) {
        var rows := ReadChemicals(remote, path, files[i]);
        if rows.Err? {
          YearFrameErrorSticks(remote, path, files, i + 1);
          return rows;
        }
        acc := acc + rows.value;
      }
    }
    assert files[..|files|] == files;
    return Ok(acc);
  }

  lemma {:induction false} YearFrameErrorSticks(remote: Remote, path: string, files: seq<string>, i: nat)
    requires i <= |files| && YearFrame(remote, path, files[..i]).Err?
    ensures YearFrame(remote, path, files) == YearFrame(remote, path, files[..i])
  {
    if i < |files| {
      assert files[..|files| - 1][..i] == files[..i];
      YearFrameErrorSticks(remote, path, files[..|files| - 1], i);
    } else {
      assert files[..i] == files;
    }
  }

  /** One year of the outer loop, applied to the table. */
  method LoadYear(remote: Remote, start: int, end: int, driver: Driver, table: ChemTable, name: string) returns (r: Result<()>)
    requires table.Valid() && !table.pkPresent
    modifies table
    ensures table.Valid() && !table.pkPresent
    ensures var step := YearStep(remote, start, end, driver, old(table.Snapshot()), name);
      && (step.Ok? ==> r == Ok(()) && table.Snapshot() == step.value)
      && (step.Err? ==> r == Err(step.error) && table.Snapshot() == old(table.Snapshot()))
  {
    var inRange := InYearRange(name, start, end);
    if inRange.None? {
      return Err(BadYear(name));
    }
    if !inRange.value {
      return Ok(());
    }
    var files := List(remote, YearPath(name));
    if files.Err? {
      return Err(files.error);
    }
    if files.value == [] {
      return Ok(());
    }
    var frame := ReadYear(remote, YearPath(name), files.value);
    if frame.Err? {
      return Err(frame.error);
    }
    if frame.value == [] {
      return Ok(());
    }
    table.Load(DropDuplicates(frame.value), driver);
    return Ok(());
  }

  lemma YearsNext(remote: Remote, start: int, end: int, driver: Driver, s: TableState, names: seq<string>, i: nat, t: TableState)
    requires i < |names| && Years(remote, start, end, driver, s, names[..i]) == Run(t, None)
    ensures Years(remote, start, end, driver, s, names[..i + 1]) ==
      match YearStep(remote, start, end, driver, t, names[i])
      case Err(e) => Run(t, Some(e))
      case Ok(next) => Run(next, None)
  {
    assert names[..i + 1][..i] == names[..i];
  }

  /** The outer loop of `load_backfile`, with the constraint already dropped. */
  method LoadYears(remote: Remote, start: int, end: int, driver: Driver, table: ChemTable, years: seq<string>) returns (r: Result<()>)
    requires table.Valid() && !table.pkPresent
    modifies table
    ensures table.Valid() && !table.pkPresent
    ensures var run := Years(remote, start, end, driver, old(table.Snapshot()), years);
      && table.Snapshot() == run.state
      && (run.error.Some? ==> r == Err(run.error.value))
      && (run.error.None? ==> r == Ok(()))
  {
    ghost var s0 := table.Snapshot();
    for i := 0 to |years|
      invariant table.Valid() && !table.pkPresent
      invariant Years(remote, start, end, driver, s0, years[..i]) == Run(table.Snapshot(), None)
    {
      ghost var before := table.Snapshot();
      var step := LoadYear(remote, start, end, driver, table, years[i]);
      YearsNext(remote, start, end, driver, s0, years, i, before);
      if step.Err? {
        YearsErrorSticks(remote, start, end, driver, s0, years, i + 1);
        return step;
      }
    }
    assert years[..|years|] == years;
    return Ok(());
  }

  /** `load_backfile(engine, unique_col, logger, ..., start_year, end_year)`: the constraint is
      dropped once before the years and added back once after them, its failure ignored; an
      error on the way leaves the years already loaded and the constraint dropped. */
  method LoadBackfile(remote: Remote, start: int, end: int, table: ChemTable, driver: Driver) returns (r: Result<()>)
    requires table.Valid()
    modifies table
    ensures table.Valid()
    ensures List(remote, BackfileRoot).Err? ==> r == Err(List(remote, BackfileRoot).error) && unchanged(table)
    ensures List(remote, BackfileRoot).Ok? ==>
      var run := Years(remote, start, end, driver, old(table.Snapshot()), List(remote, BackfileRoot).value);
      && table.Snapshot() == run.state
      && (run.error.Some? ==> r == Err(run.error.value) && !table.pkPresent)
      && (run.error.None? ==> r == Ok(()) && table.pkPresent == EntryKeysDistinct(table.entries))
  {
    var years := List(remote, BackfileRoot);
    if years.Err? {
      return Err(years.error);
    }
    var _ := table.DropPk();
    r := LoadYears(remote, start, end, driver, table, years.value);
    if r.Ok? {
      var _ := table.AddPk();
    }
  }
}
