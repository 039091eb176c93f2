/** The string, integer-formatting and path operations of Python that the client relies on. */
module Text {
  import opened Outcomes

  predicate StartsWith(s: string, prefix: string) {
    |prefix| <= |s| && s[..|prefix|] == prefix
  }

  /** `s.endswith(suffix)` */
  predicate EndsWith(s: string, suffix: string) {
    |suffix| <= |s| && s[|s| - |suffix|..] == suffix
  }

  /** `sub in s`: `sub` starts at some position of `s`. */
  predicate Contains(s: string, sub: string)
    decreases |s|
  {
    StartsWith(s, sub) || (s != [] && Contains(s[1..], sub))
  }

  /** Index of the first `c` in `s`, or `|s|` when there is none. */
  function IndexOf(s: string, c: char): (i: nat)
    ensures i <= |s|
    ensures i < |s| ==> s[i] == c
  {
    if s == [] then 0
    else if s[0] == c then 0
    else 1 + IndexOf(s[1..], c)
  }

  /** No `c` comes before the first one. */
  lemma {:induction false} IndexOfFirst(s: string, c: char)
    ensures forall j :: 0 <= j < IndexOf(s, c) ==> s[j] != c
  {
    if s != [] && s[0] != c {
      IndexOfFirst(s[1..], c);
      assert forall j :: 1 <= j < IndexOf(s, c) ==> s[j] == s[1..][j - 1];
    }
  }

  /** Text without `c` is skipped over whole. */
  lemma {:induction false} IndexOfSkip(p: string, q: string, c: char)
    requires c !in p
    ensures IndexOf(p + q, c) == |p| + IndexOf(q, c)
  {
    if p != [] {
      assert (p + q)[0] == p[0];
      assert (p + q)[1..] == p[1..] + q;
      IndexOfSkip(p[1..], q, c);
    } else {
      assert p + q == q;
    }
  }

  /** `s.rfind(c)`: index of the last `c` in `s`, or -1. */
  function LastIndexOf(s: string, c: char): (i: int)
    ensures -1 <= i < |s|
    ensures 0 <= i ==> s[i] == c
    ensures forall j :: i < j < |s| ==> s[j] != c
  {
    if s == [] then -1
    else if s[|s| - 1] == c then |s| - 1
    else LastIndexOf(s[..|s| - 1], c)
  }

  /** `s.rstrip(c)` for a single character `c`. */
  function RStrip(s: string, c: char): (r: string)
    ensures |r| <= |s| && r == s[..|r|]
    ensures r == [] || r[|r| - 1] != c
    ensures forall j :: |r| <= j < |s| ==> s[j] == c
  {
    if s != [] && s[|s| - 1] == c then RStrip(s[..|s| - 1], c) else s
  }

  /** `s.split(c)[0]`: everything before the first `c`. */
  function BeforeFirst(s: string, c: char): (r: string)
    ensures StartsWith(s, r) && c !in r
    ensures |r| < |s| ==> s[|r|] == c
  {
    IndexOfFirst(s, c);
    s[..IndexOf(s, c)]
  }

  predicate AllSlashes(s: string) {
    forall j :: 0 <= j < |s| ==> s[j] == '/'
  }

  /** `os.path.split(p)` on a POSIX path: the part before the last '/',
      stripped of trailing slashes unless it is nothing but slashes, and the part after it. */
  function PathSplit(p: string): (r: (string, string))
    ensures '/' !in r.1
    ensures EndsWith(p, r.1)
    ensures r.1 == p[LastIndexOf(p, '/') + 1..]
    ensures var i := LastIndexOf(p, '/') + 1;
            && |r.0| <= i && r.0 == p[..|r.0|]
            && (forall j :: |r.0| <= j < i ==> p[j] == '/')
            && (AllSlashes(p[..i]) ==> r.0 == p[..i])
            && (!AllSlashes(p[..i]) ==> r.0 != [] && r.0[|r.0| - 1] != '/')
  {
    var i := LastIndexOf(p, '/') + 1;
    SplitTail(p, i);
    (SplitHead(p, i), p[i..])
  }

  /** What follows the last '/' holds none and ends the path. */
  lemma SplitTail(p: string, i: nat)
    requires i == LastIndexOf(p, '/') + 1
    ensures '/' !in p[i..] && EndsWith(p, p[i..])
  {
    var tail := p[i..];
    assert forall k :: 0 <= k < |tail| ==> tail[k] == p[i + k];
  }

  /** The head of `os.path.split` when the last '/' is at `i - 1`. */
  function SplitHead(p: string, i: nat): (h: string)
    requires i <= |p|
    ensures |h| <= i && h == p[..|h|]
    ensures forall j :: |h| <= j < i ==> p[j] == '/'
    ensures AllSlashes(p[..i]) ==> h == p[..i]
    ensures !AllSlashes(p[..i]) ==> h != [] && h[|h| - 1] != '/'
  {
    if i > 0 && !AllSlashes(p[..i]) then StripHead(p, i); RStrip(p[..i], '/') else p[..i]
  }

  /** Stripping the trailing slashes of a head that is not all slashes leaves a non-empty
      prefix of the path that does not end in '/'. */
  lemma StripHead(p: string, i: nat)
    requires i <= |p| && !AllSlashes(p[..i])
    ensures var h := RStrip(p[..i], '/');
            && |h| <= i && h == p[..|h|]
            && (forall j :: |h| <= j < i ==> p[j] == '/')
            && h != [] && h[|h| - 1] != '/'
  {
    var head := p[..i];
    var h := RStrip(head, '/');
    assert forall j :: 0 <= j < i ==> head[j] == p[j];
  }

  /** Splitting a joined path gives back its two parts. */
  lemma PathSplitJoin(d: string, f: string)
    requires d != [] && d[|d| - 1] != '/' && '/' !in f
    ensures PathSplit(d + "/" + f) == (d, f)
  {
    var p := d + "/" + f;
    var i := LastIndexOf(p, '/');
    assert p[|d|] == '/';
    assert forall k :: |d| < k < |p| ==> p[k] == f[k - |d| - 1];
    assert i == |d|;
    assert p[..i + 1] == d + "/";
    assert p[i + 1..] == f;
    var h := RStrip(d + "/", '/');
    assert h == d;
  }

  function Concat(ls: seq<string>): string {
    if ls == [] then [] else ls[0] + Concat(ls[1..])
  }

  /** The lines that iterating over a text file yields: each keeps its '\n',
      and only the last one may lack it. */
  function Lines(s: string): seq<string>
    decreases |s|
  {
    if s == [] then []
    else
      var i := IndexOf(s, '\n');
      if i == |s| then [s] else [s[..i + 1]] + Lines(s[i + 1..])
  }

  /** One step of `Lines` on text with a newline. */
  lemma LinesUnfold(s: string, i: nat)
    requires i == IndexOf(s, '\n') && i < |s|
    ensures Lines(s) == [s[..i + 1]] + Lines(s[i + 1..])
  {
  }

  /** The lines concatenate back to the text. */
  lemma {:induction false} LinesConcat(s: string)
    ensures Concat(Lines(s)) == s
    decreases |s|
  {
    if s != [] {
      var i := IndexOf(s, '\n');
      if i == |s| {
        assert Concat([s]) == s + Concat([]);
      } else {
        var head := s[..i + 1];
        var tail := s[i + 1..];
        LinesUnfold(s, i);
        LinesConcat(tail);
        var ls := [head] + Lines(tail);
        assert ls[1..] == Lines(tail);
        assert Concat(ls) == head + Concat(Lines(tail));
        assert head + tail == s;
      }
    }
  }

  /** The first line of `s + t` is the first line of `s` when `s` holds a newline. */
  lemma LinesAppendStep(s: string, t: string, i: nat)
    requires i == IndexOf(s, '\n') && i < |s|
    ensures Lines(s + t) == [s[..i + 1]] + Lines(s[i + 1..] + t)
  {
    var st := s + t;
    IndexOfAppend(s, t, '\n');
    assert st[..i + 1] == s[..i + 1];
    assert st[i + 1..] == s[i + 1..] + t;
    LinesUnfold(st, i);
  }

  /** Reading back text written after a complete line keeps the earlier lines. */
  lemma {:induction false} LinesAppend(s: string, t: string)
    requires s == [] || s[|s| - 1] == '\n'
    ensures Lines(s + t) == Lines(s) + Lines(t)
    decreases |s|
  {
    if s == [] {
      assert s + t == t;
    } else {
      IndexOfAt(s, '\n', |s| - 1);
      var i := IndexOf(s, '\n');
      var head := s[..i + 1];
      var tail := s[i + 1..];
      assert tail == [] || tail[|tail| - 1] == s[|s| - 1];
      LinesAppendStep(s, t, i);
      LinesAppend(tail, t);
      LinesUnfold(s, i);
      ConsAppend(head, Lines(tail), Lines(t), Lines(s + t), Lines(s));
    }
  }

  lemma ConsAppend<T>(h: T, a: seq<T>, b: seq<T>, x: seq<T>, y: seq<T>)
    requires x == [h] + (a + b) && y == [h] + a
    ensures x == y + b
  {
  }

  /** The first `c` comes no later than any `c`. */
  lemma {:induction false} IndexOfAt(s: string, c: char, j: nat)
    requires j < |s| && s[j] == c
    ensures IndexOf(s, c) <= j
  {
    if s[0] != c {
      IndexOfAt(s[1..], c, j - 1);
    }
  }

  lemma {:induction false} IndexOfAppend(s: string, t: string, c: char)
    requires IndexOf(s, c) < |s|
    ensures IndexOf(s + t, c) == IndexOf(s, c)
  {
    if s[0] != c {
      assert (s + t)[1..] == s[1..] + t;
      IndexOfAppend(s[1..], t, c);
    }
  }

  /** A non-empty text without a newline is one line, the last one, without its newline. */
  lemma LinesOfText(p: string)
    requires p != [] && '\n' !in p
    ensures Lines(p) == [p]
  {
    assert IndexOf(p, '\n') == |p|;
  }

  /** A single line without an embedded newline reads back as itself. */
  lemma LinesOfLine(p: string)
    requires '\n' !in p
    ensures Lines(p + "\n") == [p + "\n"]
  {
    var s := p + "\n";
    var i := IndexOf(s, '\n');
    IndexOfSkip(p, "\n", '\n');
    assert i == |p|;
    assert s[..i + 1] == s;
    assert s[i + 1..] == [];
  }

  predicate IsDigit(c: char) {
    '0' <= c <= '9'
  }

  predicate AllDigits(s: string) {
    forall j :: 0 <= j < |s| ==> IsDigit(s[j])
  }

  function DigitChar(d: nat): (c: char)
    requires d < 10
    ensures IsDigit(c)
  {
    (48 + d) as char
  }

  function DigitValue(c: char): nat
    requires IsDigit(c)
  {
    c as int - 48
  }

  /** The decimal digits of `n`, most significant first, without leading zeros. */
  function NatToString(n: nat): (s: string)
    ensures |s| >= 1 && AllDigits(s)
    decreases n
  {
    if n < 10 then [DigitChar(n)] else NatToString(n / 10) + [DigitChar(n % 10)]
  }

  /** `str(n)` */
  function IntToString(n: int): string {
    if n < 0 then "-" + NatToString(-n) else NatToString(n)
  }

  function DigitsValue(s: string): nat
    requires AllDigits(s)
  {
    if s == [] then 0 else 10 * DigitsValue(s[..|s| - 1]) + DigitValue(s[|s| - 1])
  }

  /** An optional sign and then at least one ASCII digit. */
  predicate IsDecimal(s: string) {
    (|s| > 1 && (s[0] == '-' || s[0] == '+') && AllDigits(s[1..])) || (|s| > 0 && AllDigits(s))
  }

  /** `int(s)` on an ASCII decimal: an optional sign and then at least one digit.
      `None` stands for the ValueError Python raises on anything else. */
  function ParseInt(s: string): (r: Option<int>)
    ensures r.Some? <==> IsDecimal(s)
    ensures r.Some? && AllDigits(s) ==> r.value == DigitsValue(s)
    ensures r.Some? && !AllDigits(s) ==> var v: int := DigitsValue(s[1..]); r.value == if s[0] == '-' then -v else v
    ensures r.Some? && s[0] == '-' ==> r.value <= 0
    ensures r.Some? && s[0] != '-' ==> r.value >= 0
  {
    if |s| > 1 && (s[0] == '-' || s[0] == '+') && AllDigits(s[1..]) then
      var v: int := DigitsValue(s[1..]);
      Some(if s[0] == '-' then -v else v)
    else if |s| > 0 && AllDigits(s) then Some(DigitsValue(s))
    else None
  }

  lemma {:induction false} DigitsOfNat(n: nat)
    ensures DigitsValue(NatToString(n)) == n
    decreases n
  {
    if n >= 10 {
      var s := NatToString(n);
      assert s[..|s| - 1] == NatToString(n / 10);
      DigitsOfNat(n / 10);
    }
  }

  /** `int(str(n)) == n` */
  lemma ParseIntToString(n: int)
    ensures ParseInt(IntToString(n)) == Some(n)
  {
    var t := NatToString(if n < 0 then -n else n);
    if n < 0 {
      assert IntToString(n) == "-" + t;
      ParseSigned(t);
      DigitsOfNat(-n);
    } else {
      assert IntToString(n) == t;
      ParseUnsigned(t);
      DigitsOfNat(n);
    }
  }

  /** A minus sign and then digits parse to the negated value of the digits. */
  lemma ParseSigned(t: string)
    requires t != [] && AllDigits(t)
    ensures ParseInt("-" + t) == Some(-(DigitsValue(t) as int))
  {
    assert ("-" + t)[1..] == t;
  }

  /** Digits alone parse to their value. */
  lemma ParseUnsigned(t: string)
    requires t != [] && AllDigits(t)
    ensures ParseInt(t) == Some(DigitsValue(t) as int)
  {
    assert IsDigit(t[0]);
  }

  function Zeros(k: nat): (z: string)
    ensures |z| == k && forall j :: 0 <= j < k ==> z[j] == '0'
  {
    seq(k, _ => '0')
  }

  /** `s.zfill(width)`: pads with zeros on the left, after a leading sign. */
  function ZFill(s: string, width: nat): string {
    if |s| >= width then s
    else if s != [] && (s[0] == '-' || s[0] == '+') then [s[0]] + Zeros(width - |s|) + s[1..]
    else Zeros(width - |s|) + s
  }

  /** `zfill` keeps a leading sign in front, keeps the rest of the text at the end, and fills
      the gap up to `width` with zeros. */
  lemma ZFillShape(s: string, width: nat)
    ensures |ZFill(s, width)| == if |s| >= width then |s| else width
    ensures var r := ZFill(s, width);
            var k := if s != [] && (s[0] == '-' || s[0] == '+') then 1 else 0;
            && r[..k] == s[..k]
            && r[|r| - (|s| - k)..] == s[k..]
            && forall j :: k <= j < |r| - (|s| - k) ==> r[j] == '0'
  {
  }

  /** `str(n).zfill(2)` */
  function Pad2(n: int): string {
    ZFill(IntToString(n), 2)
  }

  /** Every number below 100 pads to exactly two digits that read back as it. */
  lemma Pad2Digits(n: int)
    requires 0 <= n < 100
    ensures |Pad2(n)| == 2 && AllDigits(Pad2(n)) && DigitsValue(Pad2(n)) == n
  {
    var s := Pad2(n);
    if n < 10 {
      assert s == ['0', DigitChar(n)];
      assert s[..1] == ['0'];
    } else {
      assert NatToString(n / 10) == [DigitChar(n / 10)];
      assert s == [DigitChar(n / 10), DigitChar(n % 10)];
      assert s[..1] == [DigitChar(n / 10)];
      assert DigitsValue(s[..1]) == n / 10;
    }
  }
}
