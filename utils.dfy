/** The two pieces of logic in libs/utils.py: `safe_get`, a dict lookup that
    treats a stored `None` like a missing key, and the rule by which
    `trailer_log` records a message for a title in the add-on's
    `Trailer_log.txt`: the first line mentioning the title is replaced by the
    new entry unless it already holds the message, and the entry is appended
    when no line mentions the title. */
module Utils {
  import opened Python

  // ---------------------------------------------------------------------------
  // safe_get

  /** `safe_get(dct, key, default)`. A value of `dct` is `None` (Python's
      None) or `Some(v)`; so is `default` (`None` when the caller gives none). */
  function SafeGet<K, V>(dct: map<K, Option<V>>, key: K, default: Option<V>): (r: Option<V>)
    ensures key in dct && dct[key].Some? ==> r == dct[key]
    ensures key !in dct ==> r == default
    ensures key in dct && dct[key].None? ==> r == default
  {
    if key in dct && dct[key].Some? then dct[key] else default
  }

  /** The entries of `dct` whose value is not `None`. */
  function Present<K, V>(dct: map<K, Option<V>>): map<K, V>
  {
    map k | k in dct && dct[k].Some? :: dct[k].value
  }

  /** `safe_get` is an ordinary lookup with a default in the dict with its
      `None` entries dropped. */
  lemma SafeGetIsLookupInPresent<K, V>(dct: map<K, Option<V>>, key: K, default: Option<V>)
    ensures SafeGet(dct, key, default) == if key in Present(dct) then Some(Present(dct)[key]) else default
  {
  }

  // ---------------------------------------------------------------------------
  // trailer_log

  /** The line `trailer_log` writes: `key + msg + title + '\n'`. */
  function Entry(key: string, msg: string, title: string): string
  {
    key + msg + title + "\n"
  }

  /** The index of the first line that contains `title`, or `None`. */
  function FirstContaining(lines: seq<string>, title: string): (r: Option<nat>)
    ensures r.Some? ==> r.value < |lines| && Contains(lines[r.value], title)
    ensures r.Some? ==> forall j :: 0 <= j < r.value ==> !Contains(lines[j], title)
    ensures r.None? ==> forall j :: 0 <= j < |lines| ==> !Contains(lines[j], title)
  {
    if lines == [] then None
    else if Contains(lines[0], title) then Some(0)
    else
      match FirstContaining(lines[1..], title)
      case None => None
      case Some(i) => Some(i + 1)
  }

  /** The contents of the log file after `trailer_log(key, msg, title)` on a
      file holding `contents`. */
  function TrailerLogged(contents: string, key: string, msg: string, title: string): string
  {
    var lines := ReadLines(contents);
    match FirstContaining(lines, title)
    case None => contents + Entry(key, msg, title)
    case Some(i) => if Contains(lines[i], msg) then contents else Concat(lines[i := Entry(key, msg, title)])
  }

  /** The add-on's `Trailer_log.txt`. A file that does not exist yet holds
      `""`: opening it in mode 'a+' creates it empty. */
  class TrailerLogFile {
    var contents: string

    constructor (contents: string)
      ensures this.contents == contents
    {
      this.contents := contents;
    }

    /** `trailer_log(key, msg, title)`, with `title` already a string in NFC form. */
    method TrailerLog(key: string, msg: string, title: string)
      modifies this
      ensures contents == TrailerLogged(old(contents), key, msg, title)
    {
      var lines := ReadLines(contents);              // f.seek(0); f.readlines()
      var found := false;
      var txtMsg := key + msg + title + "\n";
      if |lines| > 0 {
        var i := 0;
        while i < |lines|
          invariant 0 <= i <= |lines|
          invariant !found && contents == old(contents)
          invariant lines == ReadLines(old(contents))
          invariant forall j :: 0 <= j < i ==> !Contains(lines[j], title)
        {
          if Contains(lines[i], title) {
            found := true;
            if !Contains(lines[i], msg) {
              lines := lines[i := txtMsg];
              contents := Concat(lines);             // open(Logtxt, "w").write("".join(lines))
            }
            break;
          }
          i := i + 1;
        }
      }
      if !found {
        contents := contents + txtMsg;               // open(Logtxt, "a").write(txt_msg)
      }
    }
  }

  // ---------------------------------------------------------------------------
  // Properties of trailer_log, for a key, message and title without '\n'

  lemma EntryIsLine(key: string, msg: string, title: string)
    requires NoNewline(key + msg + title)
    ensures IsLine(Entry(key, msg, title)) && Terminated(Entry(key, msg, title))
  {
    var e := Entry(key, msg, title);
    forall k | 0 <= k < |e| - 1
      ensures e[k] != '\n'
    {
      assert e[k] == (key + msg + title)[k];
    }
  }

  /** The entry mentions both its title and its message. */
  lemma EntryContains(key: string, msg: string, title: string)
    ensures Contains(Entry(key, msg, title), title)
    ensures Contains(Entry(key, msg, title), msg)
  {
    var e := Entry(key, msg, title);
    assert title <= title + "\n";
    assert e == (key + msg) + (title + "\n");
    ContainsInSuffix(key + msg, title + "\n", title);
    assert msg <= msg + title + "\n";
    assert e == key + (msg + title + "\n");
    ContainsInSuffix(key, msg + title + "\n", msg);
  }

  /** When no line mentions the title, the entry is appended: it becomes a
      line of its own after the existing ones when the file ends in '\n' (or
      is empty), and is merged into an unterminated last line otherwise. */
  lemma TrailerLogAppends(contents: string, key: string, msg: string, title: string)
    requires NoNewline(key + msg + title)
    requires FirstContaining(ReadLines(contents), title).None?
    ensures TrailerLogged(contents, key, msg, title) == contents + Entry(key, msg, title)
    ensures ReadLines(TrailerLogged(contents, key, msg, title))
              == AppendLine(ReadLines(contents), Entry(key, msg, title))
    ensures EndsLine(contents) ==>
              ReadLines(TrailerLogged(contents, key, msg, title))
                == ReadLines(contents) + [Entry(key, msg, title)]
  {
    var e := Entry(key, msg, title);
    assert TrailerLogged(contents, key, msg, title) == contents + e;
    EntryIsLine(key, msg, title);
    ReadLinesAppend(contents, e);
    if EndsLine(contents) {
      EndsLineLastTerminated(contents);
    }
  }

  /** Text that ends in '\n' has a terminated last line. */
  lemma EndsLineLastTerminated(s: string)
    requires EndsLine(s)
    ensures var lines := ReadLines(s); lines == [] || Terminated(lines[|lines| - 1])
  {
    var lines := ReadLines(s);
    if lines != [] {
      LastLineEnds(lines);
    }
  }

  /** The last line of non-empty text ends in the text's last character. */
  lemma {:induction false} LastLineEnds(lines: seq<string>)
    requires lines != [] && AreLines(lines)
    ensures Concat(lines) != [] && Concat(lines)[|Concat(lines)| - 1] == lines[|lines| - 1][|lines[|lines| - 1]| - 1]
    decreases |lines|
  {
    if |lines| > 1 {
      assert AreLines(lines[1..]) by {
        forall i | 0 <= i < |lines[1..]|
          ensures IsLine(lines[1..][i]) && (i < |lines[1..]| - 1 ==> Terminated(lines[1..][i]))
        {
          assert lines[1..][i] == lines[i + 1];
        }
      }
      LastLineEnds(lines[1..]);
    } else {
      assert Concat(lines) == lines[0] + Concat([]);
    }
  }

  /** When the first line mentioning the title lacks the message, that line
      alone is replaced by the entry: the number of lines and every other
      line stay as they were. When it has the message, nothing changes,
      whatever later lines hold. */
  lemma TrailerLogFirstTitleLine(contents: string, key: string, msg: string, title: string, i: nat)
    requires NoNewline(key + msg + title)
    requires FirstContaining(ReadLines(contents), title) == Some(i)
    ensures Contains(ReadLines(contents)[i], msg) ==> TrailerLogged(contents, key, msg, title) == contents
    ensures !Contains(ReadLines(contents)[i], msg) ==>
              ReadLines(TrailerLogged(contents, key, msg, title))
                == ReadLines(contents)[i := Entry(key, msg, title)]
  {
    EntryIsLine(key, msg, title);
    if !Contains(ReadLines(contents)[i], msg) {
      ReadLinesReplace(ReadLines(contents), i, Entry(key, msg, title));
    }
  }

  /** `trailer_log` adds at most one line to the file. */
  lemma TrailerLogGrowsByAtMostOneLine(contents: string, key: string, msg: string, title: string)
    requires NoNewline(key + msg + title)
    ensures |ReadLines(TrailerLogged(contents, key, msg, title))| <= |ReadLines(contents)| + 1
  {
    match FirstContaining(ReadLines(contents), title)
    case None =>
      TrailerLogAppends(contents, key, msg, title);
    case Some(i) =>
      TrailerLogFirstTitleLine(contents, key, msg, title, i);
  }

  /** Appending an entry that mentions the title and the message to lines
      none of which mentions the title: the first line that mentions it now
      holds the message. */
  lemma FoundAfterAppend(lines: seq<string>, e: string, title: string, msg: string)
    requires forall j :: 0 <= j < |lines| ==> !Contains(lines[j], title)
    requires Contains(e, title) && Contains(e, msg)
    ensures var after := AppendLine(lines, e);
            var first := FirstContaining(after, title);
            first.Some? && Contains(after[first.value], msg)
  {
    var after := AppendLine(lines, e);
    var n := |lines|;
    var k := if lines == [] || Terminated(lines[n - 1]) then n else n - 1;
    if k == n - 1 {
      ContainsInSuffix(lines[n - 1], e, title);
      ContainsInSuffix(lines[n - 1], e, msg);
    }
    assert Contains(after[k], title) && Contains(after[k], msg);
    forall j | 0 <= j < k
      ensures !Contains(after[j], title)
    {
      assert after[j] == lines[j];
    }
    assert FirstContaining(after, title) == Some(k);
  }

  /** Replacing the first line that mentions the title by an entry that
      mentions the title and the message: that line is still the first. */
  lemma FoundAfterReplace(lines: seq<string>, i: nat, e: string, title: string)
    requires i < |lines| && forall j :: 0 <= j < i ==> !Contains(lines[j], title)
    requires Contains(e, title)
    ensures FirstContaining(lines[i := e], title) == Some(i)
  {
    var after := lines[i := e];
    assert after[i] == e;
    forall j | 0 <= j < i
      ensures !Contains(after[j], title)
    {
      assert after[j] == lines[j];
    }
  }

  /** After `trailer_log`, the first line mentioning the title holds the message. */
  lemma TrailerLogRecords(contents: string, key: string, msg: string, title: string)
    requires NoNewline(key + msg + title)
    ensures var after := ReadLines(TrailerLogged(contents, key, msg, title));
            var first := FirstContaining(after, title);
            first.Some? && Contains(after[first.value], msg)
  {
    var lines := ReadLines(contents);
    var e := Entry(key, msg, title);
    EntryContains(key, msg, title);
    match FirstContaining(lines, title)
    case None =>
      TrailerLogAppends(contents, key, msg, title);
      FoundAfterAppend(lines, e, title, msg);
    case Some(i) =>
      TrailerLogFirstTitleLine(contents, key, msg, title, i);
      if !Contains(lines[i], msg) {
        FoundAfterReplace(lines, i, e, title);
      }
  }

  /** Logging the same message for the same title twice changes the file
      only once. */
  lemma TrailerLogIdempotent(contents: string, key: string, msg: string, title: string)
    requires NoNewline(key + msg + title)
    ensures TrailerLogged(TrailerLogged(contents, key, msg, title), key, msg, title)
              == TrailerLogged(contents, key, msg, title)
  {
    TrailerLogRecords(contents, key, msg, title);
  }

  // ---------------------------------------------------------------------------
  // A title with a newline before its last character

  /** No line `readlines()` yields mentions a title with a '\n' before its
      last character. */
  lemma LineLacksBrokenTitle(line: string, title: string, k: nat)
    requires IsLine(line) && k < |title| - 1 && title[k] == '\n'
    ensures !Contains(line, title)
  {
    forall i: nat
      ensures !OccursAt(line, title, i)
    {
      if i + |title| <= |line| {
        assert line[i..i + |title|][k] == line[i + k];
        assert line[i + k] != '\n';
      }
    }
    ContainsIffOccurs(line, title);
  }

  /** With such a title, `trailer_log` never finds the line it wrote and
      appends the entry on every call, so logging the same message twice
      writes it twice. */
  lemma TrailerLogBrokenTitleAppends(contents: string, key: string, msg: string, title: string, k: nat)
    requires k < |title| - 1 && title[k] == '\n'
    ensures TrailerLogged(contents, key, msg, title) == contents + Entry(key, msg, title)
    ensures TrailerLogged(TrailerLogged(contents, key, msg, title), key, msg, title)
              == contents + Entry(key, msg, title) + Entry(key, msg, title)
    ensures TrailerLogged(TrailerLogged(contents, key, msg, title), key, msg, title)
              != TrailerLogged(contents, key, msg, title)
  {
    NeverFound(contents, title, k);
    NeverFound(contents + Entry(key, msg, title), title, k);
  }

  lemma NeverFound(contents: string, title: string, k: nat)
    requires k < |title| - 1 && title[k] == '\n'
    ensures FirstContaining(ReadLines(contents), title).None?
  {
    var lines := ReadLines(contents);
    forall j | 0 <= j < |lines|
      ensures !Contains(lines[j], title)
    {
      LineLacksBrokenTitle(lines[j], title, k);
    }
  }
}
