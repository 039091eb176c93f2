/** `get_tsv_dir`: which (directory, file name) pairs a front-file partition holds. */
module Listing {
  import opened Outcomes
  import opened Text
  import opened Dicts
  import opened Ftp

  const ManifestName := "newfiles.txt"
  const TsvSuffix := ".chemicals.tsv.gz"

  /** A manifest line names a chemicals file and not a supplementary one. */
  predicate Kept(line: string) {
    Contains(line, "chemicals") && !Contains(line, "supp")
  }

  /** The entry a kept line contributes: `os.path.split(line.rstrip('\n'))`. */
  function Entry(line: string): (string, string) {
    PathSplit(RStrip(line, '\n'))
  }

  /** `dir_dict` after the loop over the first manifest lines. */
  function ManifestDict(lines: seq<string>): Dict {
    if lines == [] then []
    else
      var d := ManifestDict(lines[..|lines| - 1]);
      var line := lines[|lines| - 1];
      if Kept(line) then Put(d, Entry(line).0, Entry(line).1) else d
  }

  /** How many names of a listing equal `name`. */
  function Count(names: seq<string>, name: string): nat {
    if names == [] then 0
    else Count(names[..|names| - 1], name) + (if names[|names| - 1] == name then 1 else 0)
  }

  /** `[i for i in f_list if i.endswith('.chemicals.tsv.gz')]` */
  function TsvFiles(names: seq<string>): seq<string> {
    if names == [] then []
    else
      var rest := TsvFiles(names[..|names| - 1]);
      if EndsWith(names[|names| - 1], TsvSuffix) then rest + [names[|names| - 1]] else rest
  }

  /** `dir_dict` after the fallback loop over the first `.chemicals.tsv.gz` names:
      each of them is written under the same key. */
  function FallbackDict(key: string, tsvs: seq<string>): Dict {
    if tsvs == [] then [] else Put(FallbackDict(key, tsvs[..|tsvs| - 1]), key, tsvs[|tsvs| - 1])
  }

  /** What `get_tsv_dir` returns while positioned at `dir`. */
  function TsvDir(remote: Remote, dir: string): Result<Dict>
    requires dir in remote.dirs
  {
    var names := remote.dirs[dir];
    var pwd := Pwd(remote, dir);
    if Count(names, ManifestName) > 1 then Err(MultipleManifests(pwd))
    else if Count(names, ManifestName) == 1 then
      match Retrieve(remote, dir, ManifestName)
      case Err(e) => Err(e)
      case Ok(Plain(content)) => Ok(ManifestDict(Lines(content)))
      case Ok(_) => Err(Unreadable(dir + "/" + ManifestName))
    else Ok(FallbackDict(pwd, TsvFiles(names)))
  }

  /** `get_tsv_dir`, with its two loops. */
  method GetTsvDir(remote: Remote, dir: string) returns (r: Result<Dict>)
    requires dir in remote.dirs
    ensures r == TsvDir(remote, dir)
  {
    var names := remote.dirs[dir];
    var pwd := Pwd(remote, dir);
    var tsvList := TsvFiles(names);
    var manifests := Count(names, ManifestName);
    if manifests > 1 {
      return Err(MultipleManifests(pwd));
    }
    var d: Dict := [];
    if manifests == 1 {
      var body := Retrieve(remote, dir, ManifestName);
      if body.Err? {
        return Err(body.error);
      }
      if !body.value.Plain? {
        return Err(Unreadable(dir + "/" + ManifestName));
      }
      var lines := Lines(body.value.content);
      for i := 0 to |lines|
        invariant d == ManifestDict(lines[..i])
      {
        assert lines[..i + 1][..i] == lines[..i];
        if Kept(lines[i]) {
          var (k, v) := Entry(lines[i]);
          d := Put(d, k, v);
        }
      }
      assert lines[..|lines|] == lines;
    } else if tsvList != [] {
      for i := 0 to |tsvList|
        invariant d == FallbackDict(pwd, tsvList[..i])
      {
        assert tsvList[..i + 1][..i] == tsvList[..i];
        d := Put(d, pwd, tsvList[i]);
      }
      assert tsvList[..|tsvList|] == tsvList;
    }
    return Ok(d);
  }

  /** A manifest line `d/f` read with its newline contributes the entry `d -> f`. */
  lemma EntryOfLine(d: string, f: string)
    requires d != [] && d[|d| - 1] != '/' && '/' !in f && '\n' !in f && f != []
    ensures Entry(d + "/" + f + "\n") == (d, f)
  {
    var line := d + "/" + f + "\n";
    var s := RStrip(line, '\n');
    assert line[|line| - 2] == f[|f| - 1];
    assert s == d + "/" + f;
    PathSplitJoin(d, f);
  }

  /** The manifest dict holds each directory once. */
  lemma {:induction false} ManifestWf(lines: seq<string>)
    ensures Wf(ManifestDict(lines))
  {
    if lines != [] {
      var init := lines[..|lines| - 1];
      var line := lines[|lines| - 1];
      ManifestWf(init);
      if Kept(line) {
        PutShape(ManifestDict(init), Entry(line).0, Entry(line).1);
      }
    }
  }

  /** Line `line` is kept and names directory `k`. */
  predicate NamesDir(line: string, k: string) {
    Kept(line) && Entry(line).0 == k
  }

  /** A key is in the manifest dict exactly when some kept line names it as its directory. */
  lemma {:induction false} ManifestKeys(lines: seq<string>, k: string)
    ensures Get(ManifestDict(lines), k).Some? <==> exists i :: 0 <= i < |lines| && NamesDir(lines[i], k)
  {
    if lines != [] {
      var init := lines[..|lines| - 1];
      var last := lines[|lines| - 1];
      ManifestKeys(init, k);
      var d := ManifestDict(init);
      assert forall i :: 0 <= i < |init| ==> init[i] == lines[i];
      if NamesDir(last, k) {
        assert Get(ManifestDict(lines), k).Some?;
      } else {
        assert Get(ManifestDict(lines), k) == Get(d, k);
      }
    }
  }

  /** The value under a key comes from the last kept line with that directory. */
  lemma {:induction false} ManifestLastWins(lines: seq<string>, i: nat)
    requires i < |lines| && Kept(lines[i])
    requires forall j :: i < j < |lines| && Kept(lines[j]) ==> Entry(lines[j]).0 != Entry(lines[i]).0
    ensures Get(ManifestDict(lines), Entry(lines[i]).0) == Some(Entry(lines[i]).1)
  {
    var init := lines[..|lines| - 1];
    if i < |lines| - 1 {
      assert forall j :: 0 <= j < |init| ==> init[j] == lines[j];
      ManifestLastWins(init, i);
    }
  }

  /** Index of the last `.chemicals.tsv.gz` name of a listing, or -1. */
  function LastTsvIndex(names: seq<string>): (j: int)
    ensures -1 <= j < |names|
    ensures 0 <= j ==> EndsWith(names[j], TsvSuffix)
    ensures forall k :: j < k < |names| ==> !EndsWith(names[k], TsvSuffix)
  {
    if names == [] then -1
    else if EndsWith(names[|names| - 1], TsvSuffix) then |names| - 1
    else LastTsvIndex(names[..|names| - 1])
  }

  lemma {:induction false} TsvFilesLast(names: seq<string>)
    ensures (TsvFiles(names) == []) <==> LastTsvIndex(names) < 0
    ensures TsvFiles(names) != [] ==> TsvFiles(names)[|TsvFiles(names)| - 1] == names[LastTsvIndex(names)]
  {
    if names != [] {
      TsvFilesLast(names[..|names| - 1]);
    }
  }

  /** Writing every name under one key leaves that key with the last name. */
  lemma {:induction false} FallbackKeepsLast(key: string, tsvs: seq<string>)
    ensures FallbackDict(key, tsvs) == if tsvs == [] then [] else [(key, tsvs[|tsvs| - 1])]
  {
    if tsvs != [] {
      FallbackKeepsLast(key, tsvs[..|tsvs| - 1]);
      var d := FallbackDict(key, tsvs[..|tsvs| - 1]);
      if d != [] {
        assert Position(d, key) == 0;
      }
    }
  }

  /** Two or more manifests end the run. */
  lemma ManyManifestsFail(remote: Remote, dir: string)
    requires dir in remote.dirs && Count(remote.dirs[dir], ManifestName) > 1
    ensures TsvDir(remote, dir) == Err(MultipleManifests(Pwd(remote, dir)))
  {
  }

  /** One manifest decides the result alone, whatever else the listing holds. */
  lemma ManifestDecides(remote: Remote, dir: string, other: seq<string>)
    requires dir in remote.dirs
    requires Count(remote.dirs[dir], ManifestName) == 1 && Count(other, ManifestName) == 1
    ensures TsvDir(remote.(dirs := remote.dirs[dir := other]), dir) == TsvDir(remote, dir)
  {
    var r' := remote.(dirs := remote.dirs[dir := other]);
    assert r'.dirs[dir] == other;
    assert Pwd(r', dir) == Pwd(remote, dir);
    assert Retrieve(r', dir, ManifestName) == Retrieve(remote, dir, ManifestName);
  }

  /** Without a manifest the result is at most one entry, keyed by the current directory,
      naming the last `.chemicals.tsv.gz` file; with no such file it is empty. */
  lemma FallbackShape(remote: Remote, dir: string)
    requires dir in remote.dirs && Count(remote.dirs[dir], ManifestName) == 0
    ensures var j := LastTsvIndex(remote.dirs[dir]);
      TsvDir(remote, dir) == Ok(if j < 0 then [] else [(Pwd(remote, dir), remote.dirs[dir][j])])
  {
    var names := remote.dirs[dir];
    TsvFilesLast(names);
    FallbackKeepsLast(Pwd(remote, dir), TsvFiles(names));
  }
}
