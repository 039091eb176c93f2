/** The date and mode resolution at the start of `load_frontfile`: which partitions to visit. */
module Resolver {
  import opened Outcomes
  import opened Text
  import opened Ftp
  import Fetch

  /** The calendar date `datetime.now()` gives; a parameter of the model. */
  datatype Date = Date(year: int, month: int, day: int)

  datatype Mode = Today | YearMode(year: int) | MonthMode(year: int, month: int) | DayMode(year: int, month: int, day: int)

  /** The four branch conditions of `load_frontfile` over `custom_day`, `custom_month` and
      `custom_year`, the fourth read as Python groups it: `(day and not month) or not year`. */
  function SelectMode(day: Option<int>, month: Option<int>, year: Option<int>): (r: Result<Mode>)
    ensures r.Ok? <==> (day.None? && month.None?) || (day.None? && year.Some?) || (day.Some? && month.Some? && year.Some?)
    ensures r.Err? ==> r.error == Configuration
    ensures r == Ok(Today) <==> day.None? && month.None? && year.None?
    ensures r.Ok? && r.value.YearMode? ==> day.None? && month.None? && year == Some(r.value.year)
    ensures r.Ok? && r.value.MonthMode? ==> day.None? && month == Some(r.value.month) && year == Some(r.value.year)
    ensures r.Ok? && r.value.DayMode? ==> day == Some(r.value.day) && month == Some(r.value.month) && year == Some(r.value.year)
  {
    if day.None? && month.None? && year.None? then Ok(Today)
    else if day.None? && month.None? && year.Some? then Ok(YearMode(year.value))
    else if day.None? && month.Some? && year.Some? then Ok(MonthMode(year.value, month.value))
    else if (day.Some? && month.None?) || year.None? then Err(Configuration)
    else Ok(DayMode(year.value, month.value, day.value))
  }

  /** `'data/external/frontfile/{}'.format(year)` */
  function YearDir(y: int): string {
    Fetch.FrontfileRoot + "/" + IntToString(y)
  }

  /** The month partition, the month zero-padded to two digits. */
  function MonthDir(y: int, m: int): string {
    YearDir(y) + "/" + Pad2(m)
  }

  /** The day partition, month and day zero-padded to two digits. */
  function DayDir(y: int, m: int, d: int): string {
    MonthDir(y, m) + "/" + Pad2(d)
  }

  lemma JoinedEq(a: string, x: string, b: string, y: string)
    requires a + "/" + x == b + "/" + y && |x| == |y|
    ensures a == b && x == y
  {
    var s := a + "/" + x;
    assert a == s[..|a|] == b;
    assert x == s[|a| + 1..] == y;
  }

  /** Distinct dates (years from 0, months and days below 100) name distinct partitions. */
  lemma DayDirInjective(y: int, m: int, d: int, y': int, m': int, d': int)
    requires 0 <= y && 0 <= m < 100 && 0 <= d < 100
    requires 0 <= y' && 0 <= m' < 100 && 0 <= d' < 100
    requires DayDir(y, m, d) == DayDir(y', m', d')
    ensures y == y' && m == m' && d == d'
  {
    Pad2Digits(m);
    Pad2Digits(d);
    Pad2Digits(m');
    Pad2Digits(d');
    JoinedEq(MonthDir(y, m), Pad2(d), MonthDir(y', m'), Pad2(d'));
    JoinedEq(YearDir(y), Pad2(m), YearDir(y'), Pad2(m'));
    var n := |Fetch.FrontfileRoot| + 1;
    assert IntToString(y) == YearDir(y)[n..];
    assert IntToString(y') == YearDir(y')[n..];
    ParseIntToString(y);
    ParseIntToString(y');
  }

  /** A partition path is letters, digits and slashes: `ftp.cwd` always accepts to send it. */
  lemma DayDirNoLineBreak(y: int, m: int, d: int)
    ensures !HasLineBreak(DayDir(y, m, d))
  {
    MonthDirNoLineBreak(y, m);
    NumberNoLineBreak(d);
    JoinNoLineBreak(MonthDir(y, m), Pad2(d));
  }

  lemma JoinNoLineBreak(a: string, b: string)
    requires !HasLineBreak(a) && !HasLineBreak(b)
    ensures !HasLineBreak(a + "/" + b)
  {
  }

  lemma MonthDirNoLineBreak(y: int, m: int)
    ensures !HasLineBreak(MonthDir(y, m))
  {
    assert !HasLineBreak(Fetch.FrontfileRoot);
    NumberNoLineBreak(y);
    JoinNoLineBreak(Fetch.FrontfileRoot, IntToString(y));
    NumberNoLineBreak(m);
    JoinNoLineBreak(YearDir(y), Pad2(m));
  }

  lemma NumberNoLineBreak(n: int)
    ensures !HasLineBreak(IntToString(n)) && !HasLineBreak(Pad2(n))
  {
    var s := IntToString(n);
    var u := if n < 0 then -n else n;
    assert !HasLineBreak(NatToString(u)) by {
      var t := NatToString(u);
      assert forall j :: 0 <= j < |t| ==> IsDigit(t[j]);
    }
  }

  /** Today's partition followed by the backlog lines exactly as the file iteration yields
      them, each with its trailing newline. */
  function TodayDirsAsWritten(today: Date, backlog: seq<string>): (r: seq<string>)
    ensures |r| == |backlog| + 1 && r[0] == DayDir(today.year, today.month, today.day)
    ensures forall i :: 0 <= i < |backlog| ==> r[i + 1] == backlog[i]
  {
    [DayDir(today.year, today.month, today.day)] + backlog
  }

  /** Today's partition followed by the backlog lines with their newlines stripped. */
  function TodayDirs(today: Date, backlog: seq<string>): (r: seq<string>)
    ensures |r| == |backlog| + 1 && r[0] == DayDir(today.year, today.month, today.day)
    ensures forall i :: 0 <= i < |backlog| ==> r[i + 1] == RStrip(backlog[i], '\n')
  {
    [DayDir(today.year, today.month, today.day)] + Stripped(backlog)
  }

  /** `line.rstrip('\n')` for every line. */
  function Stripped(lines: seq<string>): (r: seq<string>)
    ensures |r| == |lines| && forall i :: 0 <= i < |lines| ==> r[i] == RStrip(lines[i], '\n')
  {
    if lines == [] then [] else Stripped(lines[..|lines| - 1]) + [RStrip(lines[|lines| - 1], '\n')]
  }

  /** `prefix + name` for every name of a listing, in listing order. */
  function Prefixed(prefix: string, names: seq<string>): (r: seq<string>)
    ensures |r| == |names| && forall i :: 0 <= i < |names| ==> r[i] == prefix + names[i]
  {
    seq(|names|, i requires 0 <= i < |names| => prefix + names[i])
  }

  /** Month mode: one partition per name listed in the month directory. */
  function MonthDirs(remote: Remote, y: int, m: int): (r: Result<seq<string>>)
    ensures r.Ok? <==> List(remote, MonthDir(y, m)).Ok?
    ensures r.Err? ==> r.error == List(remote, MonthDir(y, m)).error
    ensures r.Ok? ==> |r.value| == |remote.dirs[MonthDir(y, m)]|
    ensures r.Ok? ==> forall i :: 0 <= i < |r.value| ==> r.value[i] == MonthDir(y, m) + "/" + remote.dirs[MonthDir(y, m)][i]
  {
    match List(remote, MonthDir(y, m))
    case Err(e) => Err(e)
    case Ok(days) => Ok(Prefixed(MonthDir(y, m) + "/", days))
  }

  /** Year mode over the first months of the year's listing: each month directory's listing,
      in order. */
  function YearDirsFrom(remote: Remote, base: string, months: seq<string>): Result<seq<string>> {
    if months == [] then Ok([])
    else match YearDirsFrom(remote, base, months[..|months| - 1])
      case Err(e) => Err(e)
      case Ok(acc) =>
        var monthDir := base + "/" + months[|months| - 1];
        match List(remote, monthDir)
        case Err(e) => Err(e)
        case Ok(days) => Ok(acc + Prefixed(monthDir + "/", days))
  }

  function YearDirs(remote: Remote, y: int): Result<seq<string>> {
    match List(remote, YearDir(y))
    case Err(e) => Err(e)
    case Ok(months) => YearDirsFrom(remote, YearDir(y), months)
  }

  /** The partitions a mode resolves to. */
  function Dirs(mode: Mode, today: Date, backlog: seq<string>, remote: Remote): Result<seq<string>> {
    match mode
    case Today => Ok(TodayDirsAsWritten(today, backlog))
    case YearMode(y) => YearDirs(remote, y)
    case MonthMode(y, m) => MonthDirs(remote, y, m)
    case DayMode(y, m, d) => Ok([DayDir(y, m, d)])
  }

  lemma {:induction false} YearDirsErrorSticks(remote: Remote, base: string, months: seq<string>, i: nat)
    requires i <= |months| && YearDirsFrom(remote, base, months[..i]).Err?
    ensures YearDirsFrom(remote, base, months) == YearDirsFrom(remote, base, months[..i])
  {
    if i < |months| {
      assert months[..|months| - 1][..i] == months[..i];
      YearDirsErrorSticks(remote, base, months[..|months| - 1], i);
    } else {
      assert months[..i] == months;
    }
  }

  /** Today mode: `frontfile_dir_list.append(line)` for every backlog line, after today's
      partition. */
  method TodayList(today: Date, backlog: seq<string>) returns (dirs: seq<string>)
    ensures dirs == TodayDirsAsWritten(today, backlog)
  {
    var day := DayDir(today.year, today.month, today.day);
    dirs := [day];
    for i := 0 to |backlog|
      invariant dirs == [day] + backlog[..i]
    {
      dirs := dirs + [backlog[i]];
    }
    assert backlog[..|backlog|] == backlog;
  }

  lemma YearDirsStep(remote: Remote, base: string, months: seq<string>, i: nat, acc: seq<string>, days: seq<string>)
    requires i < |months|
    requires YearDirsFrom(remote, base, months[..i]) == Ok(acc)
    requires List(remote, base + "/" + months[i]) == Ok(days)
    ensures YearDirsFrom(remote, base, months[..i + 1]) == Ok(acc + Prefixed(base + "/" + months[i] + "/", days))
  {
    assert months[..i + 1][..i] == months[..i];
  }

  /** A month whose listing fails ends the year's resolution with that error. */
  lemma YearDirsStepErr(remote: Remote, base: string, months: seq<string>, i: nat, acc: seq<string>)
    requires i < |months|
    requires YearDirsFrom(remote, base, months[..i]) == Ok(acc)
    requires List(remote, base + "/" + months[i]).Err?
    ensures YearDirsFrom(remote, base, months[..i + 1]) == Err(List(remote, base + "/" + months[i]).error)
  {
    assert months[..i + 1][..i] == months[..i];
  }

  /** The inner loop of year mode: one path per day listed in `monthDir`, after `dirs`. */
  method AppendDays(dirs: seq<string>, monthDir: string, days: seq<string>) returns (r: seq<string>)
    ensures r == dirs + Prefixed(monthDir + "/", days)
  {
    r := dirs;
    for j := 0 to |days|
      invariant r == dirs + Prefixed(monthDir + "/", days[..j])
    {
      r := r + [monthDir + "/" + days[j]];
    }
    assert days[..|days|] == days;
  }

  /** Year mode: the nested loops over the month listing and each month's day listing. */
  method YearList(remote: Remote, y: int) returns (r: Result<seq<string>>)
    ensures r == YearDirs(remote, y)
  {
    var base := YearDir(y);
    var listed := List(remote, base);
    if listed.Err? {
      return Err(listed.error);
    }
    var months := listed.value;
    var dirs: seq<string> := [];
    for i := 0 to |months|
      invariant YearDirsFrom(remote, base, months[..i]) == Ok(dirs)
    {
      var monthDir := base + "/" + months[i];
      var daysListed := List(remote, monthDir);
      if daysListed.Err? {
        YearDirsStepErr(remote, base, months, i, dirs);
        YearDirsErrorSticks(remote, base, months, i + 1);
        return Err(daysListed.error);
      }
      YearDirsStep(remote, base, months, i, dirs, daysListed.value);
      dirs := AppendDays(dirs, monthDir, daysListed.value);
    }
    assert months[..|months|] == months;
    r := Ok(dirs);
  }

  /** The path list `load_frontfile` builds for a mode. */
  method ResolveDirs(mode: Mode, today: Date, backlog: seq<string>, remote: Remote) returns (r: Result<seq<string>>)
    ensures r == Dirs(mode, today, backlog, remote)
  {
    match mode {
      case Today =>
        var dirs := TodayList(today, backlog);
        r := Ok(dirs);
      case YearMode(y) =>
        r := YearList(remote, y);
      case MonthMode(y, m) =>
        r := MonthDirs(remote, y, m);
      case DayMode(y, m, d) =>
        r := Ok([DayDir(y, m, d)]);
    }
  }

  /** Every listed (month, day) pair of year mode is among the partitions. */
  lemma {:induction false} YearDirsCovers(remote: Remote, base: string, months: seq<string>, i: nat, j: nat)
    requires YearDirsFrom(remote, base, months).Ok?
    requires i < |months| && List(remote, base + "/" + months[i]).Ok?
    requires j < |remote.dirs[base + "/" + months[i]]|
    ensures base + "/" + months[i] + "/" + remote.dirs[base + "/" + months[i]][j] in YearDirsFrom(remote, base, months).value
  {
    var init := months[..|months| - 1];
    if i < |months| - 1 {
      assert init[i] == months[i];
      YearDirsCovers(remote, base, init, i, j);
    } else {
      var monthDir := base + "/" + months[i];
      var p := Prefixed(monthDir + "/", remote.dirs[monthDir]);
      assert p[j] in p;
    }
  }

  /** And year mode visits nothing else. */
  lemma {:induction false} YearDirsOnly(remote: Remote, base: string, months: seq<string>, p: string)
    requires YearDirsFrom(remote, base, months).Ok? && p in YearDirsFrom(remote, base, months).value
    ensures exists i, j :: 0 <= i < |months| && List(remote, base + "/" + months[i]).Ok? &&
              0 <= j < |remote.dirs[base + "/" + months[i]]| &&
              p == base + "/" + months[i] + "/" + remote.dirs[base + "/" + months[i]][j]
  {
    var init := months[..|months| - 1];
    var acc := YearDirsFrom(remote, base, init).value;
    var i := |months| - 1;
    var monthDir := base + "/" + months[i];
    var days := remote.dirs[monthDir];
    if p in acc {
      YearDirsOnly(remote, base, init, p);
      var i', j' :| 0 <= i' < |init| && List(remote, base + "/" + init[i']).Ok? &&
              0 <= j' < |remote.dirs[base + "/" + init[i']]| &&
              p == base + "/" + init[i'] + "/" + remote.dirs[base + "/" + init[i']][j'];
      assert init[i'] == months[i'];
    } else {
      var q := Prefixed(monthDir + "/", days);
      assert p in q;
      var j :| 0 <= j < |q| && q[j] == p;
      assert p == base + "/" + months[i] + "/" + days[j];
    }
  }

  /** Month mode over a month directory listing `01`, `02`, `15` yields exactly those three
      day partitions, in listing order. */
  /** The partition path of March 2019. */
  lemma MonthDirExample()
    ensures MonthDir(2019, 3) == "data/external/frontfile/2019/03"
  {
    assert NatToString(2019) == "2019" by {
      assert NatToString(2) == "2";
      assert NatToString(20) == "20";
      assert NatToString(201) == "201";
    }
    assert IntToString(2019) == "2019";
    assert Zeros(1) == "0";
    assert Pad2(3) == "03";
  }

  lemma MonthModeExample(remote: Remote)
    requires remote.dirs == map["data/external/frontfile/2019/03" := ["01", "02", "15"]]
    ensures Dirs(MonthMode(2019, 3), Date(2024, 6, 1), [], remote) ==
              Ok(["data/external/frontfile/2019/03/01", "data/external/frontfile/2019/03/02", "data/external/frontfile/2019/03/15"])
  {
    var base := MonthDir(2019, 3);
    MonthDirExample();
    MonthDirNoLineBreak(2019, 3);
    assert List(remote, base) == Ok(["01", "02", "15"]);
    var ds := Prefixed(base + "/", ["01", "02", "15"]);
    assert ds[0] == "data/external/frontfile/2019/03/01";
    assert ds[1] == "data/external/frontfile/2019/03/02";
    assert ds[2] == "data/external/frontfile/2019/03/15";
    assert ds == ["data/external/frontfile/2019/03/01", "data/external/frontfile/2019/03/02", "data/external/frontfile/2019/03/15"];
    assert base in remote.dirs;
  }
}
