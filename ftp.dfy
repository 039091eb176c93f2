/** The FTP server, as the values one run of the client reads from it. */
module Ftp {
  import opened Outcomes
  import opened Rows
  import opened Text

  /** A file on the server: gzip-compressed TSV, plain text, or bytes neither reader accepts.
      Plain text is what `open(..., 'r')` reads, after its translation of `\r\n` and `\r` to `\n`. */
  datatype FileBody = Gzipped(table: Tsv) | Plain(content: string) | Corrupt

  /** `root` is what `ftp.pwd()` answers right after login; `dirs` maps every path that `CWD`
      accepts from there to what `NLST` lists in it; `files` maps a directory and a name to
      what `RETR` sends. */
  datatype Remote = Remote(root: string, dirs: map<string, seq<string>>, files: map<(string, string), FileBody>)

  /** `ftp.pwd()` after `ftp.cwd(parent_dir)` and `ftp.cwd(dir)`. */
  function Pwd(remote: Remote, dir: string): (r: string)
    ensures StartsWith(r, remote.root) && EndsWith(r, dir)
    ensures |r| - |dir| > 0 && r[|r| - |dir| - 1] == '/'
    ensures |r| == |remote.root| + |dir| + (if remote.root != [] && remote.root[|remote.root| - 1] == '/' then 0 else 1)
  {
    if remote.root != [] && remote.root[|remote.root| - 1] == '/' then remote.root + dir
    else remote.root + "/" + dir
  }

  /** ftplib's `putline` raises ValueError, before anything is sent, for a command with a line
      break in it. */
  predicate HasLineBreak(s: string) {
    '\n' in s || '\r' in s
  }

  lemma ConcatNoLineBreak(a: string, b: string)
    requires !HasLineBreak(a) && !HasLineBreak(b)
    ensures !HasLineBreak(a + b)
  {
    assert forall k :: 0 <= k < |a + b| ==> (a + b)[k] == if k < |a| then a[k] else b[k - |a|];
  }

  /** `ftp.cwd(dir)`: a line break is refused before sending, and a directory the server does
      not have is error_perm. */
  function Cwd(remote: Remote, dir: string): (r: Result<()>)
    ensures r.Ok? <==> !HasLineBreak(dir) && dir in remote.dirs
    ensures r.Err? ==> r.error == if HasLineBreak(dir) then LineBreak(dir) else NotFound(dir)
  {
    if HasLineBreak(dir) then Err(LineBreak(dir))
    else if dir in remote.dirs then Ok(())
    else Err(NotFound(dir))
  }

  /** `ftp.cwd(dir)` and then `ftp.nlst()`. */
  function List(remote: Remote, dir: string): (r: Result<seq<string>>)
    ensures r.Ok? <==> Cwd(remote, dir).Ok?
    ensures r.Ok? ==> r.value == remote.dirs[dir]
    ensures r.Err? ==> r.error == Cwd(remote, dir).error
  {
    match Cwd(remote, dir)
    case Err(e) => Err(e)
    case Ok(_) => Ok(remote.dirs[dir])
  }

  /** `RETR name` while positioned at `dir`. */
  function Retrieve(remote: Remote, dir: string, name: string): (r: Result<FileBody>)
    ensures r.Ok? <==> !HasLineBreak(name) && (dir, name) in remote.files
    ensures r.Ok? ==> r.value == remote.files[(dir, name)]
    ensures r.Err? ==> r.error == if HasLineBreak(name) then LineBreak(name) else NotFound(dir + "/" + name)
  {
    if HasLineBreak(name) then Err(LineBreak(name))
    else if (dir, name) in remote.files then Ok(remote.files[(dir, name)])
    else Err(NotFound(dir + "/" + name))
  }

  /** Download `name` from `dir` and run `parse_chemicals_file` on it. */
  function ReadChemicals(remote: Remote, dir: string, name: string): Result<seq<Row>> {
    match Retrieve(remote, dir, name)
    case Err(e) => Err(e)
    case Ok(Gzipped(t)) => ParseChemicals(t)
    case Ok(_) => Err(Unreadable(dir + "/" + name))
  }
}
