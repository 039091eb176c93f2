/** `load_frontfile`: resolve the partitions of a date or range, visit them in order, merge
    their rows and load the result. */
module Frontfile {
  import opened Outcomes
  import opened Text
  import opened Rows
  import opened Dicts
  import opened Ftp
  import opened Listing
  import opened Fetch
  import opened Resolver
  import opened Table
  import opened Backlog

  /** Where the visiting loop stands: still going with the rows merged so far, stopped at a
      missing partition, or ended by an uncaught error. */
  datatype Progress = Running(acc: seq<Row>) | Halted(dir: string) | Failed(error: Error)

  /** What one partition yields: its directory is missing, reading it fails, or a frame
      (empty when its dict is empty). */
  datatype Reading = Missing | Broken(error: Error) | Frame(rows: seq<Row>)

  /** Only the error_perm of a missing directory is caught; a name `ftp.cwd` refuses to send
      is an uncaught error. */
  function Read(remote: Remote, dir: string): Reading {
    if HasLineBreak(dir) then Broken(LineBreak(dir))
    else if dir !in remote.dirs then Missing
    else
      match TsvDir(remote, dir)
      case Err(e) => Broken(e)
      case Ok(d) =>
        if d == [] then Frame([])
        else
          match FrontfileRows(remote, d)
          case Err(e) => Broken(e)
          case Ok(batch) => Frame(batch)
  }

  /** One turn of the loop: a missing directory stops it; an empty dict or an empty frame is
      skipped; otherwise the frame is appended and duplicates dropped, keeping the first. */
  function Step(remote: Remote, p: Progress, dir: string): Progress {
    if !p.Running? then p else After(p.acc, Read(remote, dir), dir)
  }

  /** Where the loop stands after reading `dir` with `acc` merged so far. */
  function After(acc: seq<Row>, r: Reading, dir: string): Progress {
    match r
    case Missing => Halted(dir)
    case Broken(e) => Failed(e)
    case Frame(batch) => if batch == [] then Running(acc) else Running(DropDuplicates(acc + batch))
  }

  /** The loop over the resolved partitions. */
  function Visit(remote: Remote, dirs: seq<string>): Progress {
    if dirs == [] then Running([]) else Step(remote, Visit(remote, dirs[..|dirs| - 1]), dirs[|dirs| - 1])
  }

  /** The rows one partition contributes when it can be read, and nothing otherwise. */
  function Batch(remote: Remote, dir: string): seq<Row> {
    if Read(remote, dir).Frame? then Read(remote, dir).rows else []
  }

  /** All partitions' rows, in visiting order. */
  function Gathered(remote: Remote, dirs: seq<string>): seq<Row> {
    if dirs == [] then [] else Gathered(remote, dirs[..|dirs| - 1]) + Batch(remote, dirs[|dirs| - 1])
  }

  /** One partition of the loop: `ftp.cwd`, `get_tsv_dir`, `get_frontfile_df`. */
  method ReadPartition(remote: Remote, dir: string) returns (r: Reading)
    ensures r == Read(remote, dir)
  {
    var entered := Cwd(remote, dir);
    if entered.Err? {
      if entered.error.NotFound? {
        return Missing;
      }
      return Broken(entered.error);
    }
    var d := GetTsvDir(remote, dir);
    if d.Err? {
      return Broken(d.error);
    }
    if d.value == [] {
      return Frame([]);
    }
    var b := GetFrontfileDf(remote, d.value);
    if b.Err? {
      return Broken(b.error);
    }
    return Frame(b.value);
  }

  lemma {:induction false} VisitSticks(remote: Remote, dirs: seq<string>, i: nat)
    requires i <= |dirs| && !Visit(remote, dirs[..i]).Running?
    ensures Visit(remote, dirs) == Visit(remote, dirs[..i])
  {
    if i < |dirs| {
      assert dirs[..|dirs| - 1][..i] == dirs[..i];
      VisitSticks(remote, dirs[..|dirs| - 1], i);
    } else {
      assert dirs[..i] == dirs;
    }
  }

  /** A completed visit holds exactly the rows of all partitions with duplicates dropped
      across partitions, so the first partition (in visiting order) to mention a compound wins. */
  lemma {:induction false} VisitMerges(remote: Remote, dirs: seq<string>)
    ensures Visit(remote, dirs).Running? ==> Visit(remote, dirs).acc == DropDuplicates(Gathered(remote, dirs))
  {
    if dirs != [] {
      var init := dirs[..|dirs| - 1];
      var dir := dirs[|dirs| - 1];
      VisitMerges(remote, init);
      var p := Visit(remote, init);
      if p.Running? {
        var b := Batch(remote, dir);
        DedupPrefix(Gathered(remote, init), b);
        if b == [] {
          assert Gathered(remote, init) + b == Gathered(remote, init);
        }
      }
    }
  }

  /** The loop stops at the first partition that does not exist, after every earlier
      partition was visited. */
  lemma {:induction false} VisitHalts(remote: Remote, dirs: seq<string>)
    requires Visit(remote, dirs).Halted?
    ensures exists i ::
              && 0 <= i < |dirs| && dirs[i] == Visit(remote, dirs).dir
              && !HasLineBreak(dirs[i]) && dirs[i] !in remote.dirs
              && Visit(remote, dirs[..i]).Running?
  {
    var init := dirs[..|dirs| - 1];
    var p := Visit(remote, init);
    StepHalted(remote, p, dirs[|dirs| - 1]);
    if p.Halted? {
      VisitHalts(remote, init);
      var i :| 0 <= i < |init| && init[i] == p.dir && !HasLineBreak(init[i]) && init[i] !in remote.dirs && Visit(remote, init[..i]).Running?;
      PrefixOfInit(dirs, i);
    }
  }

  /** A turn that halts the loop either found it halted already, or found its directory
      missing. */
  lemma StepHalted(remote: Remote, p: Progress, dir: string)
    requires Step(remote, p, dir).Halted?
    ensures p.Halted? ==> Step(remote, p, dir) == p
    ensures !p.Halted? ==> p.Running? && Step(remote, p, dir) == Halted(dir) && !HasLineBreak(dir) && dir !in remote.dirs
  {
  }

  /** Dropping the last element keeps every shorter prefix and the elements inside it. */
  lemma PrefixOfInit<T>(s: seq<T>, i: nat)
    requires i < |s| - 1
    ensures s[..|s| - 1][..i] == s[..i] && s[..|s| - 1][i] == s[i]
  {
  }

  /** A loop that runs to the end went through every partition. */
  lemma {:induction false} VisitCompletes(remote: Remote, dirs: seq<string>)
    requires Visit(remote, dirs).Running?
    ensures forall i :: 0 <= i < |dirs| ==> !HasLineBreak(dirs[i]) && dirs[i] in remote.dirs
  {
    if dirs != [] {
      var init := dirs[..|dirs| - 1];
      StepRunning(remote, Visit(remote, init), dirs[|dirs| - 1]);
      VisitCompletes(remote, init);
      EnteredSnoc(remote, dirs, init);
    }
  }

  lemma EnteredSnoc(remote: Remote, dirs: seq<string>, init: seq<string>)
    requires dirs != [] && init == dirs[..|dirs| - 1]
    requires forall i :: 0 <= i < |init| ==> !HasLineBreak(init[i]) && init[i] in remote.dirs
    requires !HasLineBreak(dirs[|dirs| - 1]) && dirs[|dirs| - 1] in remote.dirs
    ensures forall i :: 0 <= i < |dirs| ==> !HasLineBreak(dirs[i]) && dirs[i] in remote.dirs
  {
    forall i | 0 <= i < |dirs| ensures !HasLineBreak(dirs[i]) && dirs[i] in remote.dirs {
      if i < |init| {
        assert dirs[i] == init[i];
      }
    }
  }

  /** A turn that leaves the loop running started running and found its directory. */
  lemma StepRunning(remote: Remote, p: Progress, dir: string)
    requires Step(remote, p, dir).Running?
    ensures p.Running? && !HasLineBreak(dir) && dir in remote.dirs
  {
  }

  /** One more turn of a loop that is still running reads the next partition. */
  lemma VisitNext(remote: Remote, dirs: seq<string>, i: nat, acc: seq<Row>)
    requires i < |dirs| && Visit(remote, dirs[..i]) == Running(acc)
    ensures Visit(remote, dirs[..i + 1]) == After(acc, Read(remote, dirs[i]), dirs[i])
  {
    assert dirs[..i + 1][..i] == dirs[..i];
  }

  /** The loop of `load_frontfile`. */
  method VisitDirs(remote: Remote, dirs: seq<string>) returns (p: Progress)
    ensures p == Visit(remote, dirs)
  {
    var acc: seq<Row> := [];
    var i := 0;
    while i < |dirs|
      invariant 0 <= i <= |dirs|
      invariant Visit(remote, dirs[..i]) == Running(acc)
    {
      var r := ReadPartition(remote, dirs[i]);
      VisitNext(remote, dirs, i, acc);
      var next := After(acc, r, dirs[i]);
      if !next.Running? {
        VisitSticks(remote, dirs, i + 1);
        return next;
      }
      acc := next.acc;
      i := i + 1;
    }
    assert dirs[..|dirs|] == dirs;
    return Running(acc);
  }

  /** The lines a run reads from the backlog: only today mode reads it, and only when the file
      exists. */
  function BacklogRead(mode: Mode, present: bool, content: string): seq<string> {
    if mode == Today && present then Lines(content) else []
  }

  /** Where the run of a mode ends up before anything is written. */
  function Plan(remote: Remote, today: Date, mode: Mode, backlog: seq<string>): Progress {
    match Dirs(mode, today, backlog, remote)
    case Err(e) => Failed(e)
    case Ok(dirs) => Visit(remote, dirs)
  }

  /** How a run ends: rows written (with the counts it logs), nothing to write, stopped at a
      missing partition (which went to the backlog), or an uncaught error. */
  datatype RunOutcome = Written(compounds: nat, added: int, total: nat) | NoRecords | Backlogged(dir: string) | Aborted(error: Error)

  /** A load whose constraint has just been dropped leaves distinct keys, so adding the
      constraint back always succeeds; the final count is the number of distinct keys. */
  lemma LoadRowsCount(s: TableState, rows: seq<Row>, driver: Driver)
    requires Increasing(s.entries) && Below(s.entries, s.nextRowid)
    ensures EntryKeysDistinct(LoadRows(s, rows, driver).entries)
    ensures |LoadRows(s, rows, driver).entries| == |EntryKeys(s.entries) + Keys(rows)|
  {
    LoadRowsSpec(s, rows, driver);
    DistinctCount(LoadRows(s, rows, driver).entries);
  }

  /** The writing half of `load_frontfile`: count, drop the constraint, `dfloader`, add the
      constraint back, count again. */
  method WriteRows(rows: seq<Row>, table: ChemTable, driver: Driver) returns (out: RunOutcome)
    requires table.Valid()
    modifies table
    ensures table.Valid() && table.pkPresent
    ensures table.Snapshot() == LoadRows(old(table.Snapshot()), rows, driver)
    ensures out == Written(|rows|, |table.entries| - old(|table.entries|), |table.entries|)
    ensures out.total == |EntryKeys(old(table.entries)) + Keys(rows)|
  {
    var oldCount := table.Count();
    ghost var before := table.Snapshot();
    var _ := table.DropPk();
    table.Load(rows, driver);
    LoadRowsCount(before, rows, driver);
    var restored := table.AddPk();
    assert restored.Ok?;
    var newCount := table.Count();
    var added := newCount as int - oldCount as int;
    return Written(|rows|, added, newCount);
  }

  /** What a run whose visit ended in `p` does to the backlog (from `present0`, `content0`) and
      to the table (from `t0`, `pk0`), and what it reports. */
  predicate Effect(p: Progress, out: RunOutcome, driver: Driver,
                   present0: bool, content0: string, present1: bool, content1: string,
                   t0: TableState, pk0: bool, t1: TableState, pk1: bool)
  {
    && (p.Halted? ==> out == Backlogged(p.dir) && present1 && content1 == content0 + p.dir + "\n")
    && (!p.Halted? ==> present1 == present0 && content1 == content0)
    && (p.Failed? ==> out == Aborted(p.error))
    && (p.Running? && p.acc == [] ==> out == NoRecords)
    && (p.Running? && p.acc != [] ==>
          && t1 == LoadRows(t0, p.acc, driver) && pk1
          && out == Written(|p.acc|, |t1.entries| - |t0.entries|, |t1.entries|)
          && out.total == |EntryKeys(t0.entries) + Keys(p.acc)|)
    && (!(p.Running? && p.acc != []) ==> t1 == t0 && pk1 == pk0)
  }

  /** A halted visit only appends to the backlog. */
  lemma EffectHalted(p: Progress, out: RunOutcome, driver: Driver,
                     present0: bool, content0: string, present1: bool, content1: string,
                     t0: TableState, pk0: bool, t1: TableState, pk1: bool)
    requires p.Halted?
    requires Effect(p, out, driver, present0, content0, present1, content1, t0, pk0, t1, pk1)
    ensures out == Backlogged(p.dir) && present1 && content1 == content0 + p.dir + "\n"
    ensures t1 == t0 && pk1 == pk0
  {
  }

  /** The visiting loop of `load_frontfile` and what follows it: a missing partition goes to the
      backlog, an empty merge writes nothing, and any other merge is written. */
  method RunDirs(remote: Remote, dirs: seq<string>, backlog: BacklogFile, table: ChemTable, driver: Driver) returns (out: RunOutcome)
    requires backlog.Valid() && table.Valid()
    modifies backlog, table
    ensures backlog.Valid() && table.Valid()
    ensures Effect(Visit(remote, dirs), out, driver,
                   old(backlog.present), old(backlog.content), backlog.present, backlog.content,
                   old(table.Snapshot()), old(table.pkPresent), table.Snapshot(), table.pkPresent)
  {
    var p := VisitDirs(remote, dirs);
    match p
    case Halted(x) =>
      backlog.Append(x + "\n");
      return Backlogged(x);
    case Failed(e) =>
      return Aborted(e);
    case Running(rows) =>
      if rows == [] {
        return NoRecords;
      }
      out := WriteRows(rows, table, driver);
  }

  /** `load_frontfile(engine, unique_col, logger, ...)`. The clock reading is `today`. Bad date
      arguments change nothing; only today mode reads and removes the backlog, and the rest of
      the run starts from what that leaves. */
  method LoadFrontfile(remote: Remote, today: Date, day: Option<int>, month: Option<int>, year: Option<int>,
                        backlog: BacklogFile, table: ChemTable, driver: Driver) returns (out: RunOutcome)
    requires backlog.Valid() && table.Valid()
    modifies backlog, table
    ensures backlog.Valid() && table.Valid()
    ensures SelectMode(day, month, year).Err? ==>
      out == Aborted(Configuration) && unchanged(backlog) && unchanged(table)
    ensures SelectMode(day, month, year).Ok? ==>
      var mode := SelectMode(day, month, year).value;
      Effect(Plan(remote, today, mode, BacklogRead(mode, old(backlog.present), old(backlog.content))), out, driver,
             mode != Today && old(backlog.present), if mode == Today then "" else old(backlog.content),
             backlog.present, backlog.content,
             old(table.Snapshot()), old(table.pkPresent), table.Snapshot(), table.pkPresent)
  {
    var m := SelectMode(day, month, year);
    if m.Err? {
      return Aborted(Configuration);
    }
    var mode := m.value;
    var lines: seq<string> := [];
    if mode == Today {
      lines := backlog.ReadAndRemove();
    }
    var dirs := ResolveDirs(mode, today, lines, remote);
    if dirs.Err? {
      return Aborted(dirs.error);
    }
    out := RunDirs(remote, dirs.value, backlog, table, driver);
  }

  /** As written, a backlog line keeps its newline, and `ftp.cwd` refuses a name holding one
      with a ValueError that the visiting loop does not catch: once today's partition has been
      visited, the run ends with that error, whatever the server holds. */
  lemma BacklogReplayAsWritten(remote: Remote, today: Date, dir: string)
    requires !HasLineBreak(dir)
    ensures TodayDirsAsWritten(today, Lines(dir + "\n")) == [DayDir(today.year, today.month, today.day), dir + "\n"]
    ensures Visit(remote, [DayDir(today.year, today.month, today.day)]).Running? ==>
              Visit(remote, TodayDirsAsWritten(today, Lines(dir + "\n"))) == Failed(LineBreak(dir + "\n"))
    ensures !Visit(remote, [DayDir(today.year, today.month, today.day)]).Running? ==>
              Visit(remote, TodayDirsAsWritten(today, Lines(dir + "\n"))) == Visit(remote, [DayDir(today.year, today.month, today.day)])
  {
    LinesOfLine(dir);
    var dirs := TodayDirsAsWritten(today, Lines(dir + "\n"));
    assert dirs[..1] == [DayDir(today.year, today.month, today.day)];
    assert HasLineBreak(dir + "\n") by {
      assert (dir + "\n")[|dir|] == '\n';
    }
  }

  /** With that error, the today-mode run that drained the backlog writes nothing back: the
      backlogged partition is gone from the backlog and nothing is loaded. */
  lemma BacklogLostAsWritten(remote: Remote, today: Date, dir: string, out: RunOutcome, driver: Driver,
                             present1: bool, content1: string, t0: TableState, pk0: bool, t1: TableState, pk1: bool)
    requires !HasLineBreak(dir)
    requires Visit(remote, [DayDir(today.year, today.month, today.day)]).Running?
    requires Effect(Plan(remote, today, Today, Lines(dir + "\n")), out, driver, false, "", present1, content1, t0, pk0, t1, pk1)
    ensures out == Aborted(LineBreak(dir + "\n"))
    ensures !present1 && t1 == t0 && pk1 == pk0
  {
    BacklogReplayAsWritten(remote, today, dir);
  }

  /** As written, a today-mode run whose own partition is missing stops at it before any
      backlog line: the file already removed, the backlog afterwards holds today's partition
      alone, and every line it held before is lost. */
  lemma TodayMissingLosesBacklog(remote: Remote, today: Date, content: string, out: RunOutcome, driver: Driver,
                                 present1: bool, content1: string, t0: TableState, pk0: bool, t1: TableState, pk1: bool)
    requires DayDir(today.year, today.month, today.day) !in remote.dirs
    requires Effect(Plan(remote, today, Today, Lines(content)), out, driver, false, "", present1, content1, t0, pk0, t1, pk1)
    ensures out == Backlogged(DayDir(today.year, today.month, today.day))
    ensures present1 && Lines(content1) == [DayDir(today.year, today.month, today.day) + "\n"]
    ensures t1 == t0 && pk1 == pk0
  {
    var day := DayDir(today.year, today.month, today.day);
    DayDirNoLineBreak(today.year, today.month, today.day);
    assert Read(remote, day) == Missing;
    assert Visit(remote, [day]) == Halted(day);
    TodayPlanStarts(remote, today, Lines(content));
    HaltedAlone(Plan(remote, today, Today, Lines(content)), out, driver, present1, content1, t0, pk0, t1, pk1);
  }

  /** A run that found no backlog and halts leaves a backlog naming only the path it halted at. */
  lemma HaltedAlone(p: Progress, out: RunOutcome, driver: Driver,
                    present1: bool, content1: string, t0: TableState, pk0: bool, t1: TableState, pk1: bool)
    requires p.Halted? && !HasLineBreak(p.dir)
    requires Effect(p, out, driver, false, "", present1, content1, t0, pk0, t1, pk1)
    ensures out == Backlogged(p.dir) && present1 && Lines(content1) == [p.dir + "\n"]
    ensures t1 == t0 && pk1 == pk0
  {
    EffectHalted(p, out, driver, false, "", present1, content1, t0, pk0, t1, pk1);
    assert "" + p.dir + "\n" == p.dir + "\n";
    LinesOfLine(p.dir);
  }

  /** As written, a backlog line that `ftp.cwd` accepts but that names a partition still
      missing stops the run right after today's partition was read: today's rows are not
      loaded, and the backlog afterwards names only the missing path, so no later today-mode
      run visits today's date again. */
  lemma TodayDroppedAsWritten(remote: Remote, today: Date, p: string, out: RunOutcome, driver: Driver,
                              present1: bool, content1: string, t0: TableState, pk0: bool, t1: TableState, pk1: bool)
    requires p != [] && !HasLineBreak(p) && p !in remote.dirs
    requires Visit(remote, [DayDir(today.year, today.month, today.day)]).Running?
    requires Effect(Plan(remote, today, Today, Lines(p)), out, driver, false, "", present1, content1, t0, pk0, t1, pk1)
    ensures out == Backlogged(p) && p != DayDir(today.year, today.month, today.day)
    ensures present1 && Lines(content1) == [p + "\n"]
    ensures t1 == t0 && pk1 == pk0
  {
    var day := DayDir(today.year, today.month, today.day);
    LinesOfText(p);
    assert TodayDirsAsWritten(today, [p]) == [day, p];
    VisitPair(remote, day, p);
    assert Read(remote, p) == Missing;
    assert Plan(remote, today, Today, Lines(p)) == Halted(p);
    HaltedAlone(Plan(remote, today, Today, Lines(p)), out, driver, present1, content1, t0, pk0, t1, pk1);
  }

  /** A today-mode run visits its own partition first: when that one does not let the visit
      go on, the rest of the list does not matter. */
  lemma TodayPlanStarts(remote: Remote, today: Date, backlog: seq<string>)
    ensures !Visit(remote, [DayDir(today.year, today.month, today.day)]).Running? ==>
              Plan(remote, today, Today, backlog) == Visit(remote, [DayDir(today.year, today.month, today.day)])
  {
    var dirs := TodayDirsAsWritten(today, backlog);
    assert dirs[..1] == [DayDir(today.year, today.month, today.day)];
    if !Visit(remote, dirs[..1]).Running? {
      VisitSticks(remote, dirs, 1);
    }
  }

  /** Every path of a list has no line break. */
  predicate LineFree(ds: seq<string>) {
    forall i :: 0 <= i < |ds| ==> !HasLineBreak(ds[i])
  }

  /** The backlog text that names `ds`, one per line, each with its newline. */
  function Requeue(ds: seq<string>): (r: string)
    ensures r == [] || r[|r| - 1] == '\n'
  {
    if ds == [] then "" else (ds[0] + "\n") + Requeue(ds[1..])
  }

  /** Read back and stripped, a requeued backlog gives today's partition followed by exactly
      the requeued paths. */
  lemma {:induction false} RequeueReadBack(today: Date, ds: seq<string>)
    requires LineFree(ds)
    ensures TodayDirs(today, Lines(Requeue(ds))) == TodayDirsAsWritten(today, ds)
  {
    RequeueStripped(ds);
  }

  lemma {:induction false} RequeueStripped(ds: seq<string>)
    requires LineFree(ds)
    ensures Stripped(Lines(Requeue(ds))) == ds
  {
    if ds != [] {
      LineFreeTail(ds);
      RequeueStripped(ds[1..]);
      RequeueFirst(ds, ds[0], ds[1..], Requeue(ds[1..]), Requeue(ds));
    }
  }

  lemma LineFreeTail(ds: seq<string>)
    requires LineFree(ds) && ds != []
    ensures LineFree(ds[1..]) && '\n' !in ds[0]
  {
    assert forall i :: 0 <= i < |ds| - 1 ==> ds[1..][i] == ds[i + 1];
    assert !HasLineBreak(ds[0]);
  }

  /** The inductive step of `RequeueStripped`, on plain values. */
  lemma RequeueFirst(ds: seq<string>, first: string, rest: seq<string>, tail: string, whole: string)
    requires ds == [first] + rest && '\n' !in first
    requires whole == (first + "\n") + tail
    requires Stripped(Lines(tail)) == rest
    ensures Stripped(Lines(whole)) == ds
  {
    LinesCons(first, tail);
    StrippedCons(first + "\n", Lines(tail));
    AppendThenRead([], first);
  }

  /** A text that starts with a complete line reads as that line, then the rest. */
  lemma LinesCons(x: string, t: string)
    requires '\n' !in x
    ensures Lines((x + "\n") + t) == [x + "\n"] + Lines(t)
  {
    var s := (x + "\n") + t;
    var i := IndexOf(s, '\n');
    IndexOfFirst(s, '\n');
    assert s[|x|] == '\n';
    assert forall j :: 0 <= j < |x| ==> s[j] == x[j];
    assert i == |x|;
    LinesUnfold(s, i);
    assert s[..i + 1] == x + "\n";
    assert s[i + 1..] == t;
  }

  lemma StrippedCons(x: string, ls: seq<string>)
    ensures Stripped([x] + ls) == [RStrip(x, '\n')] + Stripped(ls)
  {
    var l := Stripped([x] + ls);
    var r := [RStrip(x, '\n')] + Stripped(ls);
    assert |l| == |r|;
    forall i | 0 <= i < |l| ensures l[i] == r[i] {
      if i > 0 {
        assert ([x] + ls)[i] == ls[i - 1];
      }
    }
  }

  lemma StrippedSnoc(ls: seq<string>, x: string)
    ensures Stripped(ls + [x]) == Stripped(ls) + [RStrip(x, '\n')]
  {
    assert (ls + [x])[..|ls|] == ls;
  }

  /** The evident intent: a run that stops at a missing partition has loaded nothing, so it
      writes its whole list back to the backlog. The missing partition is on that list, the
      text stays free of line breaks, and the next today-mode run visits its own partition and
      then every path of the stopped run, in the same order. */
  lemma CorrectedRequeue(remote: Remote, today: Date, next: Date, ds: seq<string>)
    requires LineFree(ds)
    requires Visit(remote, TodayDirsAsWritten(today, ds)).Halted?
    ensures var dirs := TodayDirsAsWritten(today, ds);
            && Visit(remote, dirs).dir in dirs
            && LineFree(dirs)
            && TodayDirs(next, Lines(Requeue(dirs))) == [DayDir(next.year, next.month, next.day)] + dirs
  {
    var dirs := TodayDirsAsWritten(today, ds);
    VisitHalts(remote, dirs);
    LineFreeToday(today, ds);
    RequeueReadBack(next, dirs);
  }

  lemma LineFreeToday(today: Date, ds: seq<string>)
    requires LineFree(ds)
    ensures LineFree(TodayDirsAsWritten(today, ds))
  {
    DayDirNoLineBreak(today.year, today.month, today.day);
  }

  /** A single backlogged partition, stripped: the next run visits it right after today's,
      and finds it now that it exists; when today's own partition stops the run, nothing after
      it is visited. */
  lemma BacklogReplay(remote: Remote, today: Date, dir: string)
    requires !HasLineBreak(dir) && dir in remote.dirs
    ensures TodayDirs(today, Lines(dir + "\n")) == [DayDir(today.year, today.month, today.day), dir]
    ensures Visit(remote, [DayDir(today.year, today.month, today.day)]).Running? ==>
              !Visit(remote, TodayDirs(today, Lines(dir + "\n"))).Halted?
    ensures !Visit(remote, [DayDir(today.year, today.month, today.day)]).Running? ==>
              Visit(remote, TodayDirs(today, Lines(dir + "\n"))) == Visit(remote, [DayDir(today.year, today.month, today.day)])
  {
    var day := DayDir(today.year, today.month, today.day);
    StrippedLine(today, dir);
    VisitPair(remote, day, dir);
    ReadFound(remote, dir);
  }

  lemma StrippedLine(today: Date, dir: string)
    requires !HasLineBreak(dir)
    ensures TodayDirs(today, Lines(dir + "\n")) == [DayDir(today.year, today.month, today.day), dir]
  {
    AppendThenRead([], dir);
    LinesOfLine(dir);
    StrippedSnoc([], dir + "\n");
  }

  lemma VisitPair(remote: Remote, a: string, b: string)
    ensures Visit(remote, [a, b]) == Step(remote, Visit(remote, [a]), b)
  {
    assert [a, b][..1] == [a];
  }

  /** A directory the server has, with a name `ftp.cwd` sends, is never missing. */
  lemma ReadFound(remote: Remote, dir: string)
    requires !HasLineBreak(dir) && dir in remote.dirs
    ensures !Read(remote, dir).Missing?
  {
  }
}
