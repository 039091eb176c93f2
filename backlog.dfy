/** `schembl_backlog.txt`: the partitions a run could not reach, one per line. */
module Backlog {
  import opened Text

  /** The backlog file next to the module. `content` is what the file holds while `present`. */
  class BacklogFile {
    var present: bool
    var content: string

    ghost predicate Valid()
      reads this
    {
      !present ==> content == ""
    }

    constructor (present: bool, content: string)
      requires present || content == ""
      ensures Valid() && this.present == present && this.content == content
    {
      this.present := present;
      this.content := content;
    }

    /** Today mode: every line of the file, newline included, and then `os.remove`; nothing
        when there is no file. */
    method ReadAndRemove() returns (lines: seq<string>)
      requires Valid()
      modifies this
      ensures Valid() && !present
      ensures lines == (if old(present) then Lines(old(content)) else [])
    {
      lines := [];
      if present {
        lines := Lines(content);
      }
      present := false;
      content := "";
    }

    /** `open(..., 'a').write(line)`: creates the file when needed. */
    method Append(line: string)
      requires Valid()
      modifies this
      ensures Valid() && present
      ensures content == old(content) + line
    {
      present := true;
      content := content + line;
    }
  }

  /** Writing `dir + '\n'` after complete lines and reading the file back yields the earlier
      lines followed by exactly that one line. */
  lemma AppendThenRead(before: string, dir: string)
    requires before == [] || before[|before| - 1] == '\n'
    requires '\n' !in dir
    ensures Lines(before + (dir + "\n")) == Lines(before) + [dir + "\n"]
    ensures RStrip(dir + "\n", '\n') == dir
  {
    LinesAppend(before, dir + "\n");
    LinesOfLine(dir);
    var s := dir + "\n";
    var r := RStrip(s, '\n');
    assert forall j :: 0 <= j < |dir| ==> s[j] == dir[j] && s[j] != '\n';
    assert r == s[..|r|];
    assert s[..|dir|] == dir;
  }
}
