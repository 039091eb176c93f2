/** `get_frontfile_df`: fetch every file a partition's dict names and merge the rows. */
module Fetch {
  import opened Outcomes
  import opened Rows
  import opened Dicts
  import opened Ftp
  import opened Text
  import opened Listing

  const FrontfileRoot := "data/external/frontfile"

  /** The directory `get_frontfile_df` changes into for a dict key. */
  function FetchDir(tsvDir: string): string {
    FrontfileRoot + tsvDir
  }

  /** The rows of one dict entry, as `parse_chemicals_file` returns them. */
  function EntryRows(remote: Remote, e: (string, string)): Result<seq<Row>> {
    match Cwd(remote, FetchDir(e.0))
    case Err(err) => Err(err)
    case Ok(_) => ReadChemicals(remote, FetchDir(e.0), e.1)
  }

  /** The same entry's rows before the per-file deduplication. */
  function EntryRawRows(remote: Remote, e: (string, string)): Result<seq<Row>> {
    match Cwd(remote, FetchDir(e.0))
    case Err(err) => Err(err)
    case Ok(_) =>
      match Retrieve(remote, FetchDir(e.0), e.1)
      case Err(err) => Err(err)
      case Ok(Gzipped(t)) => SelectColumns(t)
      case Ok(_) => Err(Unreadable(FetchDir(e.0) + "/" + e.1))
  }

  /** The concatenation of the rows of the entries of `d`, in dict order; the first entry that
      fails ends it. `raw` chooses whether each file is deduplicated first. */
  function Collect(remote: Remote, d: Dict, raw: bool): Result<seq<Row>> {
    if d == [] then Ok([])
    else match Collect(remote, d[..|d| - 1], raw)
      case Err(e) => Err(e)
      case Ok(acc) =>
        match (if raw then EntryRawRows(remote, d[|d| - 1]) else EntryRows(remote, d[|d| - 1]))
        case Err(e) => Err(e)
        case Ok(rows) => Ok(acc + rows)
  }

  /** What `get_frontfile_df` returns. */
  function FrontfileRows(remote: Remote, d: Dict): Result<seq<Row>> {
    match Collect(remote, d, false)
    case Err(e) => Err(e)
    case Ok(acc) => Ok(DropDuplicates(acc))
  }

  lemma {:induction false} CollectErrorSticks(remote: Remote, d: Dict, i: nat, raw: bool)
    requires i <= |d| && Collect(remote, d[..i], raw).Err?
    ensures Collect(remote, d, raw) == Collect(remote, d[..i], raw)
  {
    if i < |d| {
      assert d[..|d| - 1][..i] == d[..i];
      CollectErrorSticks(remote, d[..|d| - 1], i, raw);
    } else {
      assert d[..i] == d;
    }
  }

  /** `get_frontfile_df`: change into each entry's directory, fetch and parse its file,
      concatenate, and deduplicate once at the end. */
  method GetFrontfileDf(remote: Remote, d: Dict) returns (r: Result<seq<Row>>)
    ensures r == FrontfileRows(remote, d)
  {
    var acc: seq<Row> := [];
    for i := 0 to |d|
      invariant Collect(remote, d[..i], false) == Ok(acc)
    {
      assert d[..i + 1][..i] == d[..i];
      var (tsvDir, tsv) := d[i];
      var path := FrontfileRoot + tsvDir;
      var entered := Cwd(remote, path);
      if entered.Err? {
        CollectErrorSticks(remote, d, i + 1, false);
        return Err(entered.error);
      }
      var rows := ReadChemicals(remote, path, tsv);
      if rows.Err? {
        CollectErrorSticks(remote, d, i + 1, false);
        return Err(rows.error);
      }
      acc := acc + rows.value;
    }
    assert d[..|d|] == d;
    return Ok(DropDuplicates(acc));
  }

  /** The first row seen wins across all files of a partition: the per-file deduplication and
      the final one together equal one deduplication over all the rows, in dict order. */
  lemma {:induction false} FrontfileFirstWins(remote: Remote, d: Dict)
    ensures Collect(remote, d, false).Ok? <==> Collect(remote, d, true).Ok?
    ensures Collect(remote, d, false).Ok? ==>
              FrontfileRows(remote, d) == Ok(DropDuplicates(Collect(remote, d, true).value))
  {
    if d != [] {
      var init := d[..|d| - 1];
      FrontfileFirstWins(remote, init);
      var e := d[|d| - 1];
      if Collect(remote, init, false).Ok? && EntryRows(remote, e).Ok? {
        var acc := Collect(remote, init, false).value;
        var raw := Collect(remote, init, true).value;
        var x := EntryRawRows(remote, e).value;
        assert EntryRows(remote, e).value == DropDuplicates(x);
        calc {
          DropDuplicates(acc + DropDuplicates(x));
          { DedupSuffix(acc, x); }
          DropDuplicates(acc + x);
          { DedupPrefix(acc, x); }
          DropDuplicates(DropDuplicates(acc) + x);
          { assert DropDuplicates(acc) == DropDuplicates(raw); }
          DropDuplicates(DropDuplicates(raw) + x);
          { DedupPrefix(raw, x); }
          DropDuplicates(raw + x);
        }
      }
    }
  }

  /** As written: without a manifest, `get_tsv_dir` keys its dict by the absolute `pwd()`, and
      `get_frontfile_df` puts the frontfile root in front of that key again. The partition's
      own files are then fetched from the doubled path, which fails unless the server happens
      to have it. */
  lemma FallbackPathDoubled(remote: Remote, dir: string)
    requires dir in remote.dirs && Count(remote.dirs[dir], ManifestName) == 0
    requires LastTsvIndex(remote.dirs[dir]) >= 0
    requires !HasLineBreak(remote.root) && !HasLineBreak(dir)
    requires FrontfileRoot + Pwd(remote, dir) !in remote.dirs
    ensures TsvDir(remote, dir).Ok? && |TsvDir(remote, dir).value| == 1
    ensures TsvDir(remote, dir).value[0].0 == Pwd(remote, dir)
    ensures EntryRows(remote, TsvDir(remote, dir).value[0]) == Err(NotFound(FrontfileRoot + Pwd(remote, dir)))
  {
    FallbackShape(remote, dir);
    PwdNoLineBreak(remote, dir);
  }

  lemma PwdNoLineBreak(remote: Remote, dir: string)
    requires !HasLineBreak(remote.root) && !HasLineBreak(dir)
    ensures !HasLineBreak(FrontfileRoot + Pwd(remote, dir))
  {
    var root := remote.root;
    assert !HasLineBreak(FrontfileRoot);
    ConcatNoLineBreak(FrontfileRoot, root);
    if root != [] && root[|root| - 1] == '/' {
      assert FrontfileRoot + Pwd(remote, dir) == (FrontfileRoot + root) + dir;
      ConcatNoLineBreak(FrontfileRoot + root, dir);
    } else {
      assert FrontfileRoot + Pwd(remote, dir) == ((FrontfileRoot + root) + "/") + dir;
      ConcatNoLineBreak(FrontfileRoot + root, "/");
      ConcatNoLineBreak((FrontfileRoot + root) + "/", dir);
    }
  }

  /** The key evidently meant: the partition's path below the frontfile root. */
  function FallbackKey(dir: string): (k: string)
    requires StartsWith(dir, FrontfileRoot)
    ensures FetchDir(k) == dir && |k| == |dir| - |FrontfileRoot|
  {
    dir[|FrontfileRoot|..]
  }

  /** With that key, `get_frontfile_df` changes into the partition itself and reads the file
      listed there. */
  lemma CorrectedFallbackFetch(remote: Remote, dir: string, tsv: string)
    requires StartsWith(dir, FrontfileRoot) && !HasLineBreak(dir) && dir in remote.dirs
    ensures EntryRows(remote, (FallbackKey(dir), tsv)) == ReadChemicals(remote, dir, tsv)
  {
  }
}
