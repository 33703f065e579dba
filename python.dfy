/** The parts of the Python runtime that the show-info cache and the utilities
    rely on: `None`, `str()` of the values a record holds, the exceptions the
    cache tells apart, `os.path.join` on POSIX, the substring test `sub in s`,
    `f.readlines()` on a text file and `"".join(lines)`. */
module Python {

  /** A value or Python's `None`. */
  datatype Option<T> = None | Some(value: T)

  /** The exceptions the cache distinguishes. */
  datatype Exc =
    | IOError               // OSError and its subclasses (FileNotFoundError, PermissionError, ...)
    | PickleError           // pickle.PickleError and its subclass UnpicklingError
    | EOFError              // pickle.load on an empty stream
    | KeyError              // subscripting a dict with a key it does not hold
    | TypeError             // subscripting by a string an object that does not support it
    | OtherError(name: string)

  /** What a Python operation did: returned a value, or raised an exception. */
  datatype Outcome<T> = Ok(value: T) | Raised(error: Exc)

  /** A value held in a record. */
  datatype Value =
    | Null                  // None
    | Bool(b: bool)
    | Int(i: int)
    | Text(s: string)
    | Other(repr: string)   // any other value (a float, a list, a nested dict), known by its str()

  /** `str(v)` */
  function Str(v: Value): string
  {
    match v
    case Null => "None"
    case Bool(b) => if b then "True" else "False"
    case Int(i) => IntToDecimal(i)
    case Text(s) => s
    case Other(repr) => repr
  }

  // ---------------------------------------------------------------------------
  // Decimal notation of integers, as `str(i)` writes it

  predicate IsDigits(s: string)
  {
    forall k :: 0 <= k < |s| ==> '0' <= s[k] <= '9'
  }

  function DigitChar(d: nat): (c: char)
    requires d < 10
    ensures '0' <= c <= '9' && c as int - '0' as int == d
  {
    ('0' as int + d) as char
  }

  /** The decimal digits of `n`, most significant first, without leading zeros. */
  function NatToDecimal(n: nat): (s: string)
    ensures s != [] && IsDigits(s)
    ensures |s| > 1 ==> s[0] != '0'
    decreases n
  {
    if n < 10 then [DigitChar(n)] else NatToDecimal(n / 10) + [DigitChar(n % 10)]
  }

  /** The number a string of decimal digits denotes. */
  function DecimalValue(s: string): nat
    requires IsDigits(s)
  {
    if s == [] then 0 else 10 * DecimalValue(s[..|s| - 1]) + (s[|s| - 1] as int - '0' as int)
  }

  lemma {:induction false} DecimalValueOfNatToDecimal(n: nat)
    ensures DecimalValue(NatToDecimal(n)) == n
    decreases n
  {
    if n >= 10 {
      DecimalValueOfNatToDecimal(n / 10);
      var s := NatToDecimal(n);
      assert s[..|s| - 1] == NatToDecimal(n / 10);
    }
  }

  /** `str(i)` for an int: an optional '-' followed by the digits of |i|. */
  function IntToDecimal(i: int): (s: string)
    ensures s != []
    ensures s[0] == '-' <==> i < 0
  {
    if i < 0 then "-" + NatToDecimal(-i) else NatToDecimal(i)
  }

  /** Distinct integers have distinct decimal notations. */
  lemma IntToDecimalInjective(a: int, b: int)
    ensures IntToDecimal(a) == IntToDecimal(b) <==> a == b
  {
    if IntToDecimal(a) == IntToDecimal(b) {
      var m: nat := if a < 0 then -a else a;
      var n: nat := if b < 0 then -b else b;
      SignAndDigits(a);
      SignAndDigits(b);
      assert (a < 0) == (b < 0);
      DecimalValueOfNatToDecimal(m);
      DecimalValueOfNatToDecimal(n);
    }
  }

  /** The digits of `str(i)` after its sign. */
  lemma SignAndDigits(i: int)
    ensures IntToDecimal(i)[if i < 0 then 1 else 0..] == NatToDecimal(if i < 0 then -i else i)
  {
  }

  // ---------------------------------------------------------------------------
  // os.path.join (posixpath) of two components

  /** `os.path.join(a, b)`: an absolute `b` replaces `a`; otherwise `b` is
      appended to `a`, with a '/' in between unless `a` is empty or already
      ends in one. */
  function Join(a: string, b: string): (p: string)
    ensures |b| > 0 && b[0] == '/' ==> p == b
    ensures (|b| == 0 || b[0] != '/') ==> p == a + b || p == a + "/" + b
    ensures (|b| == 0 || b[0] != '/') ==>
              (p == a + "/" + b <==> a != [] && a[|a| - 1] != '/')
  {
    if |b| > 0 && b[0] == '/' then b
    else if a == [] || a[|a| - 1] == '/' then a + b
    else a + "/" + b
  }

  // ---------------------------------------------------------------------------
  // The substring test `sub in s`

  /** `sub in s` */
  predicate Contains(s: string, sub: string)
    decreases |s|
  {
    sub <= s || (s != [] && Contains(s[1..], sub))
  }

  /** `sub` occurs in `s` starting at index `i`. */
  predicate OccursAt(s: string, sub: string, i: nat)
  {
    i + |sub| <= |s| && s[i..i + |sub|] == sub
  }

  /** `Contains` agrees with the positional definition of a substring. */
  lemma ContainsIffOccurs(s: string, sub: string)
    ensures Contains(s, sub) <==> exists i: nat :: OccursAt(s, sub, i)
  {
    if Contains(s, sub) {
      var i := OccurrenceOf(s, sub);
    }
    if exists i: nat :: OccursAt(s, sub, i) {
      var i: nat :| OccursAt(s, sub, i);
      OccurrenceContains(s, sub, i);
    }
  }

  /** Where `sub in s` finds `sub`. */
  lemma {:induction false} OccurrenceOf(s: string, sub: string) returns (i: nat)
    requires Contains(s, sub)
    ensures OccursAt(s, sub, i)
    decreases |s|
  {
    if sub <= s {
      i := 0;
    } else {
      var j := OccurrenceOf(s[1..], sub);
      i := j + 1;
      assert s[i..i + |sub|] == s[1..][j..j + |sub|];
    }
  }

  /** An occurrence of `sub` makes `sub in s` true. */
  lemma {:induction false} OccurrenceContains(s: string, sub: string, i: nat)
    requires OccursAt(s, sub, i)
    ensures Contains(s, sub)
    decreases i
  {
    if i == 0 {
      assert s[..|sub|] == sub;
    } else {
      assert s[1..][i - 1..i - 1 + |sub|] == s[i..i + |sub|];
      OccurrenceContains(s[1..], sub, i - 1);
    }
  }

  /** A string that occurs in `b` occurs in `a + b`. */
  lemma {:induction false} ContainsInSuffix(a: string, b: string, sub: string)
    requires Contains(b, sub)
    ensures Contains(a + b, sub)
    decreases |a|
  {
    if a != [] {
      assert (a + b)[1..] == a[1..] + b;
      ContainsInSuffix(a[1..], b, sub);
    } else {
      assert a + b == b;
    }
  }

  // ---------------------------------------------------------------------------
  // Lines of a text file: `f.readlines()` and `"".join(lines)`

  /** A line as `readlines` yields it: non-empty, with no '\n' except perhaps
      as its last character. */
  predicate IsLine(l: string)
  {
    l != [] && forall k :: 0 <= k < |l| - 1 ==> l[k] != '\n'
  }

  /** A line that ends in '\n'. */
  predicate Terminated(l: string)
  {
    l != [] && l[|l| - 1] == '\n'
  }

  /** A list `readlines` can yield: lines, every one but the last terminated. */
  predicate AreLines(lines: seq<string>)
  {
    forall i :: 0 <= i < |lines| ==> IsLine(lines[i]) && (i < |lines| - 1 ==> Terminated(lines[i]))
  }

  /** Text that is empty or ends in '\n': every line of it is terminated. */
  predicate EndsLine(s: string)
  {
    s == [] || s[|s| - 1] == '\n'
  }

  predicate NoNewline(s: string)
  {
    forall k :: 0 <= k < |s| ==> s[k] != '\n'
  }

  /** `"".join(lines)` */
  function Concat(lines: seq<string>): string
  {
    if lines == [] then "" else lines[0] + Concat(lines[1..])
  }

  /** The length of the first line of `s`: up to and including its first
      '\n', or all of `s` when it has none. */
  function FirstLineLength(s: string): (n: nat)
    requires s != []
    ensures 1 <= n <= |s|
    ensures n == |s| || s[n - 1] == '\n'
    ensures forall k :: 0 <= k < n - 1 ==> s[k] != '\n'
    decreases |s|
  {
    if s[0] == '\n' || |s| == 1 then 1 else 1 + FirstLineLength(s[1..])
  }

  /** `f.readlines()` on a file holding `s`: `s` cut after every '\n', the
      terminators kept, so that joining the lines gives `s` back. */
  function ReadLines(s: string): (lines: seq<string>)
    ensures AreLines(lines)
    ensures Concat(lines) == s
    decreases |s|
  {
    if s == [] then []
    else
      var n := FirstLineLength(s);
      var rest := ReadLines(s[n..]);
      assert s[..n] + s[n..] == s;
      LinesCons(s[..n], rest);
      [s[..n]] + rest
  }

  /** Putting a line in front of a list of lines. */
  lemma LinesCons(l: string, rest: seq<string>)
    requires IsLine(l) && AreLines(rest) && (rest != [] ==> Terminated(l))
    ensures AreLines([l] + rest)
    ensures Concat([l] + rest) == l + Concat(rest)
  {
    assert ([l] + rest)[1..] == rest;
    forall i | 1 <= i < |[l] + rest|
      ensures IsLine(([l] + rest)[i]) && (i < |rest| ==> Terminated(([l] + rest)[i]))
    {
      assert ([l] + rest)[i] == rest[i - 1];
    }
  }

  lemma {:induction false} ConcatAppend(a: seq<string>, b: seq<string>)
    ensures Concat(a + b) == Concat(a) + Concat(b)
    decreases |a|
  {
    if a != [] {
      assert (a + b)[1..] == a[1..] + b;
      ConcatAppend(a[1..], b);
    } else {
      assert a + b == b;
    }
  }

  /** The first line of a text that starts with a whole line `l`. */
  lemma {:induction false} FirstLineLengthOfLine(l: string, rest: string)
    requires IsLine(l) && (Terminated(l) || rest == [])
    ensures FirstLineLength(l + rest) == |l|
    decreases |l|
  {
    if |l| > 1 {
      assert (l + rest)[1..] == l[1..] + rest;
      FirstLineLengthOfLine(l[1..], rest);
    }
  }

  /** Reading back joined lines gives the same lines: `ReadLines` is the
      inverse of `Concat` on everything `readlines` can yield. */
  lemma {:induction false} ReadLinesConcat(lines: seq<string>)
    requires AreLines(lines)
    ensures ReadLines(Concat(lines)) == lines
    decreases |lines|
  {
    if lines != [] {
      var l, tail := lines[0], lines[1..];
      var s := Concat(lines);
      assert AreLines(tail) by {
        forall i | 0 <= i < |tail|
          ensures IsLine(tail[i]) && (i < |tail| - 1 ==> Terminated(tail[i]))
        {
          assert tail[i] == lines[i + 1];
        }
      }
      assert tail == [] ==> Concat(tail) == "";
      FirstLineLengthOfLine(l, Concat(tail));
      assert s[..|l|] == l && s[|l|..] == Concat(tail);
      ReadLinesConcat(tail);
      assert lines == [l] + tail;
    }
  }

  /** The lines `readlines` yields after `t`, one terminated line, is appended
      to text whose lines are `lines`: `t` becomes a line of its own when the
      text ends in '\n' (or is empty), otherwise it is merged into the last line. */
  function AppendLine(lines: seq<string>, t: string): (r: seq<string>)
  {
    if lines == [] || Terminated(lines[|lines| - 1]) then lines + [t]
    else lines[..|lines| - 1] + [lines[|lines| - 1] + t]
  }

  /** A line without a terminator followed by a line is a line. */
  lemma MergeLines(last: string, t: string)
    requires IsLine(last) && !Terminated(last) && IsLine(t)
    ensures IsLine(last + t)
  {
    forall k | 0 <= k < |last + t| - 1
      ensures (last + t)[k] != '\n'
    {
      if k < |last| {
        assert (last + t)[k] == last[k];
      } else {
        assert (last + t)[k] == t[k - |last|];
      }
    }
  }

  /** `AppendLine` yields lines whose join is the old join followed by `t`. */
  lemma AppendLineLines(lines: seq<string>, t: string)
    requires AreLines(lines) && IsLine(t) && Terminated(t)
    ensures AreLines(AppendLine(lines, t))
    ensures Concat(AppendLine(lines, t)) == Concat(lines) + t
  {
    if lines == [] || Terminated(lines[|lines| - 1]) {
      AppendAsNewLine(lines, t);
    } else {
      AppendMergedLine(lines, t);
    }
  }

  lemma AppendAsNewLine(lines: seq<string>, t: string)
    requires AreLines(lines) && IsLine(t)
    requires lines == [] || Terminated(lines[|lines| - 1])
    ensures AreLines(lines + [t])
    ensures Concat(lines + [t]) == Concat(lines) + t
  {
    assert Concat([t]) == t;
    ConcatAppend(lines, [t]);
    AppendedAreLines(lines, t);
  }

  lemma AppendedAreLines(lines: seq<string>, t: string)
    requires AreLines(lines) && IsLine(t)
    requires lines == [] || Terminated(lines[|lines| - 1])
    ensures AreLines(lines + [t])
  {
    var r := lines + [t];
    forall i | 0 <= i < |r|
      ensures IsLine(r[i]) && (i < |r| - 1 ==> Terminated(r[i]))
    {
      if i < |lines| {
        assert r[i] == lines[i];
      } else {
        assert r[i] == t;
      }
    }
  }

  lemma AppendMergedLine(lines: seq<string>, t: string)
    requires AreLines(lines) && IsLine(t)
    requires lines != [] && !Terminated(lines[|lines| - 1])
    ensures var n := |lines|; AreLines(lines[..n - 1] + [lines[n - 1] + t])
    ensures var n := |lines|; Concat(lines[..n - 1] + [lines[n - 1] + t]) == Concat(lines) + t
  {
    var n := |lines|;
    var last := lines[n - 1];
    var front := lines[..n - 1];
    assert lines == front + [last];
    ConcatLastExtended(front, last, t);
    MergeLines(last, t);
    MergedAreLines(lines, front, last + t);
  }

  lemma ConcatLastExtended(front: seq<string>, last: string, t: string)
    ensures Concat(front + [last + t]) == Concat(front + [last]) + t
  {
    assert Concat([last]) == last;
    assert Concat([last + t]) == last + t;
    ConcatAppend(front, [last]);
    ConcatAppend(front, [last + t]);
  }

  lemma MergedAreLines(lines: seq<string>, front: seq<string>, merged: string)
    requires AreLines(lines) && lines != [] && front == lines[..|lines| - 1]
    requires IsLine(merged)
    ensures AreLines(front + [merged])
  {
    var r := front + [merged];
    forall i | 0 <= i < |r|
      ensures IsLine(r[i]) && (i < |r| - 1 ==> Terminated(r[i]))
    {
      if i < |front| {
        assert r[i] == lines[i];
      }
    }
  }

  /** Appending one terminated line to a text adds exactly what `AppendLine` says. */
  lemma ReadLinesAppend(s: string, t: string)
    requires IsLine(t) && Terminated(t)
    ensures ReadLines(s + t) == AppendLine(ReadLines(s), t)
  {
    AppendLineLines(ReadLines(s), t);
    ReadLinesConcat(AppendLine(ReadLines(s), t));
  }

  /** Replacing one line by a terminated line keeps the lines of the text:
      reading back the joined result gives the updated list. */
  lemma ReadLinesReplace(lines: seq<string>, i: nat, t: string)
    requires AreLines(lines) && i < |lines|
    requires IsLine(t) && Terminated(t)
    ensures ReadLines(Concat(lines[i := t])) == lines[i := t]
  {
    ReadLinesConcat(lines[i := t]);
  }
}
