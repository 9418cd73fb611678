/**
 * `update_env_file` (scripts/oauth-setup.py): sets `KEY=value` in a `.env`
 * file given as its list of lines. The first line that, stripped of
 * surrounding whitespace, starts with `KEY=` is replaced; when there is none,
 * the entry is appended. Reading and writing the file are abstracted: the file
 * is `None` when it does not exist, or the list `readlines()` returns, and the
 * result is the list `writelines()` is given.
 */
module EnvFile {
  import opened Wrappers
  import opened Text
  import opened Seqs

  /** `f"{key}={value}\n"` */
  function Entry(key: string, value: string): string {
    key + "=" + value + "\n"
  }

  /** `line.strip().startswith(f"{key}=")` */
  predicate SetsKey(line: string, key: string) {
    StartsWith(Strip(line), key + "=")
  }

  function SetsKeyOf(key: string): string -> bool {
    (line: string) => SetsKey(line, key)
  }

  /** The lines `update_env_file` writes: the first line setting the key becomes the entry, or the entry is appended. */
  function UpdateLines(lines: seq<string>, key: string, value: string): seq<string> {
    ReplaceFirstOrAppend(lines, SetsKeyOf(key), Entry(key, value))
  }

  /** The loop of `update_env_file`: scan for the key, replace the first hit and `break`, else append. */
  method UpdateEnvLines(lines: seq<string>, key: string, value: string) returns (result: seq<string>)
    ensures result == UpdateLines(lines, key, value)
  {
    result := lines;
    var updated := false;
    var i := 0;
    while i < |result|
      invariant 0 <= i <= |result| && result == lines && !updated
      invariant forall j :: 0 <= j < i ==> !SetsKey(lines[j], key)
    {
      if SetsKey(result[i], key) {
        result := result[i := Entry(key, value)];
        updated := true;
        ReplacesFirst(lines, SetsKeyOf(key), Entry(key, value), i);
        break;
      }
      i := i + 1;
    }
    if !updated {
      assert forall j :: 0 <= j < |lines| ==> !SetsKeyOf(key)(lines[j]);
      AppendsWhenNone(lines, SetsKeyOf(key), Entry(key, value));
      result := result + [Entry(key, value)];
    }
  }

  /** `update_env_file`: a missing file counts as no lines. */
  method UpdateEnvFile(file: Option<seq<string>>, key: string, value: string) returns (written: seq<string>)
    ensures written == UpdateLines(file.GetOr([]), key, value)
    ensures file.None? ==> written == [Entry(key, value)]
  {
    var lines := [];
    if file.Some? {
      lines := file.value;
    }
    written := UpdateEnvLines(lines, key, value);
  }

  /** A key without leading whitespace and without a newline: how keys are written. */
  predicate PlainKey(key: string) {
    (|key| == 0 || !IsSpace(key[0])) && '\n' !in key
  }

  /** A line that is the key, `=`, and anything after sets the key, when the key has no leading whitespace. */
  lemma AssignmentSetsKey(line: string, key: string)
    requires |key| < |line| && line[..|key| + 1] == key + "="
    requires |key| == 0 || !IsSpace(key[0])
    ensures SetsKey(line, key)
  {
    var p := key + "=";
    assert p[0] == if |key| == 0 then '=' else key[0];
    assert p[|p| - 1] == '=';
    StripKeepsPrefix(line, p);
  }

  /** The entry written for a key sets that key, so a later update finds it. */
  lemma EntrySetsKey(key: string, value: string)
    requires |key| == 0 || !IsSpace(key[0])
    ensures SetsKey(Entry(key, value), key)
  {
    var e := Entry(key, value);
    assert e[..|key| + 1] == key + "=";
    AssignmentSetsKey(e, key);
  }

  /**
   * The match is on `KEY=` and not on `KEY`: a line setting a longer key that
   * merely starts with `key` (as `KEY_2=` does for `KEY`) is never replaced.
   */
  lemma LongerKeyNotMatched(line: string, key: string, other: string)
    requires SetsKey(line, other)
    requires |key| < |other| && other[..|key|] == key && other[|key|] != '='
    ensures !SetsKey(line, key)
  {
    var s := Strip(line);
    assert s[..|other| + 1] == other + "=";
    assert s[|key|] == other[|key|] != '=';
    assert s[..|key| + 1] != key + "=" by {
      assert s[..|key| + 1][|key|] != (key + "=")[|key|];
    }
  }

  /** Setting the same key to the same value twice writes the same lines as setting it once. */
  lemma UpdateIdempotent(lines: seq<string>, key: string, value: string)
    requires |key| == 0 || !IsSpace(key[0])
    ensures UpdateLines(UpdateLines(lines, key, value), key, value) == UpdateLines(lines, key, value)
  {
    EntrySetsKey(key, value);
    ReplaceFirstOrAppendIdempotent(lines, SetsKeyOf(key), Entry(key, value));
  }

  // ---------------------------------------------------------------------------
  // The file behind the lines: `writelines` writes them one after another
  // (`Concat`), `readlines` splits after every newline. An appended entry
  // lands on the same line as a last line that has no newline of its own.
  // ---------------------------------------------------------------------------

  const IS_NEWLINE: char -> bool := (c: char) => c == '\n'

  /** `f.readlines()`: pieces ending after each newline, and a last piece without one if the text does not end in a newline. */
  function ReadLines(s: string): seq<string>
    decreases |s|
  {
    if |s| == 0 then []
    else match FindIndex(s, IS_NEWLINE)
      case None => [s]
      case Some(i) => [s[..i + 1]] + ReadLines(s[i + 1..])
  }

  /** A non-empty piece of text with no newline before its last character. */
  predicate OneLine(l: string) {
    |l| > 0 && forall j :: 0 <= j < |l| - 1 ==> l[j] != '\n'
  }

  predicate EndsInNewline(l: string) {
    |l| > 0 && l[|l| - 1] == '\n'
  }

  /** What `readlines()` can return: one line per element, each but the last ending in a newline. */
  predicate WellFormedLines(lines: seq<string>) {
    forall i :: 0 <= i < |lines| ==> OneLine(lines[i]) && (i < |lines| - 1 ==> EndsInNewline(lines[i]))
  }

  /** A text ending in a newline is read on its own, whatever follows it. */
  lemma {:induction false} ReadLinesSplit(a: string, b: string)
    requires |a| == 0 || EndsInNewline(a)
    ensures ReadLines(a + b) == ReadLines(a) + ReadLines(b)
    decreases |a|
  {
    if |a| == 0 {
      assert a + b == b;
    } else {
      assert IS_NEWLINE(a[|a| - 1]);
      var i := FindIndex(a, IS_NEWLINE).value;
      FindIndexFirst(a + b, IS_NEWLINE, i);
      assert (a + b)[..i + 1] == a[..i + 1];
      assert (a + b)[i + 1..] == a[i + 1..] + b;
      ReadLinesSplit(a[i + 1..], b);
    }
  }

  /** One line is read back as itself. */
  lemma ReadOneLine(l: string)
    requires OneLine(l)
    ensures ReadLines(l) == [l]
  {
    if EndsInNewline(l) {
      FindIndexFirst(l, IS_NEWLINE, |l| - 1);
      assert l[..|l|] == l;
    } else {
      assert forall j :: 0 <= j < |l| ==> !IS_NEWLINE(l[j]);
    }
  }

  /** Lines that all end in a newline are written as a text that is empty or ends in a newline. */
  lemma ConcatEndsInNewline(lines: seq<string>)
    requires forall j :: 0 <= j < |lines| ==> EndsInNewline(lines[j])
    ensures |Concat(lines)| == 0 || EndsInNewline(Concat(lines))
  {
    if |lines| > 0 {
      var n := |lines| - 1;
      var c := Concat(lines);
      assert c == Concat(lines[..n]) + lines[n];
      assert EndsInNewline(lines[n]);
      assert c[|c| - 1] == lines[n][|lines[n]| - 1];
    }
  }

  /** All lines but the last of well-formed lines end in a newline. */
  lemma WellFormedFront(lines: seq<string>, front: seq<string>)
    requires WellFormedLines(lines) && |lines| > 0 && front == lines[..|lines| - 1]
    ensures forall j :: 0 <= j < |front| ==> OneLine(front[j]) && EndsInNewline(front[j])
    ensures WellFormedLines(front) && OneLine(lines[|lines| - 1])
  {
    assert forall j :: 0 <= j < |front| ==> front[j] == lines[j];
  }

  /** Writing well-formed lines and reading them back gives the same lines. */
  lemma {:induction false} ReadConcatLines(lines: seq<string>)
    requires WellFormedLines(lines)
    ensures ReadLines(Concat(lines)) == lines
    decreases |lines|
  {
    if |lines| > 0 {
      var n := |lines| - 1;
      var front, last := lines[..n], lines[n];
      WellFormedFront(lines, front);
      ConcatEndsInNewline(front);
      calc {
        ReadLines(Concat(lines));
        ReadLines(Concat(front) + last);
        { ReadLinesSplit(Concat(front), last); }
        ReadLines(Concat(front)) + ReadLines(last);
        { ReadConcatLines(front); ReadOneLine(last); }
        front + [last];
        lines;
      }
    }
  }

  /** A line that starts with a non-space character other than the key's first sets no key starting with it. */
  lemma FirstCharDecides(line: string, key: string)
    requires |line| > 0 && !IsSpace(line[0]) && |key| > 0 && line[0] != key[0]
    ensures !SetsKey(line, key)
  {
    StripFirstChar(line);
    assert (key + "=")[0] == key[0];
  }

  /** A line without a newline followed by a line is one line. */
  lemma OneLineJoin(a: string, b: string)
    requires OneLine(a) && !EndsInNewline(a) && OneLine(b)
    ensures OneLine(a + b)
  {
    forall j | 0 <= j < |a + b| - 1
      ensures (a + b)[j] != '\n'
    {
      if j >= |a| {
        assert (a + b)[j] == b[j - |a|];
      }
    }
  }

  /** Lines that all end in a newline stay well formed with one more line after them. */
  lemma WellFormedAppend(lines: seq<string>, line: string)
    requires forall j :: 0 <= j < |lines| ==> OneLine(lines[j]) && EndsInNewline(lines[j])
    requires OneLine(line)
    ensures WellFormedLines(lines + [line])
  {
  }

  /** The new entry is one line, ending in a newline, when neither key nor value holds a newline. */
  lemma EntryIsLine(key: string, value: string)
    requires '\n' !in key && '\n' !in value
    ensures OneLine(Entry(key, value)) && EndsInNewline(Entry(key, value))
  {
    var e := Entry(key, value);
    forall j | 0 <= j < |e| - 1
      ensures e[j] != '\n'
    {
      if j < |key| {
        assert e[j] == key[j];
      } else if j > |key| {
        assert e[j] == value[j - |key| - 1];
      }
    }
  }

  /**
   * As written, when the last line has no newline of its own and the key is
   * new, the entry is written onto the end of that last line: reading the
   * file back gives as many lines as before, the last one being the old last
   * line followed by the entry.
   */
  lemma AppendJoinsLastLine(lines: seq<string>, key: string, value: string)
    requires WellFormedLines(lines) && |lines| > 0 && !EndsInNewline(lines[|lines| - 1])
    requires FindIndex(lines, SetsKeyOf(key)).None?
    requires '\n' !in key && '\n' !in value
    ensures var n := |lines| - 1;
      ReadLines(Concat(UpdateLines(lines, key, value))) == lines[..n] + [lines[n] + Entry(key, value)]
  {
    var n, e := |lines| - 1, Entry(key, value);
    var front, last := lines[..n], lines[n];
    WellFormedFront(lines, front);
    EntryIsLine(key, value);
    OneLineJoin(last, e);
    WellFormedAppend(front, last + e);
    calc {
      ReadLines(Concat(UpdateLines(lines, key, value)));
      { AppendsWhenNone(lines, SetsKeyOf(key), e); }
      ReadLines(Concat(lines + [e]));
      { ConcatMergesLast(lines, e); }
      ReadLines(Concat(front + [last + e]));
      { ReadConcatLines(front + [last + e]); }
      front + [last + e];
    }
  }

  /** Concretely: after `A=1` with no final newline, setting `K` to `1` leaves a file whose one line is `A=1K=1`, which sets no `K`. */
  lemma AppendJoinsUnterminatedLine()
    ensures ReadLines(Concat(UpdateLines(["A=1"], "K", "1"))) == ["A=1K=1\n"]
    ensures !SetsKey("A=1K=1\n", "K")
  {
    FirstCharDecides("A=1", "K");
    assert !SetsKeyOf("K")(["A=1"][0]);
    assert WellFormedLines(["A=1"]);
    AppendJoinsLastLine(["A=1"], "K", "1");
    assert Entry("K", "1") == "K=1\n";
    assert "A=1" + "K=1\n" == "A=1K=1\n";
    assert ["A=1"][..0] + ["A=1" + Entry("K", "1")] == ["A=1K=1\n"];
    FirstCharDecides("A=1K=1\n", "K");
  }

  /** The lines with a newline put back on the last one when it lacks it. */
  function Terminated(lines: seq<string>): (r: seq<string>)
    ensures |r| == |lines|
  {
    if |lines| == 0 || EndsInNewline(lines[|lines| - 1]) then lines
    else lines[|lines| - 1 := lines[|lines| - 1] + "\n"]
  }

  /** The update with the last line terminated before appending, so the entry always starts a line of its own. */
  function UpdateLinesTerminated(lines: seq<string>, key: string, value: string): (r: seq<string>)
    ensures |r| == |lines| || |r| == |lines| + 1
  {
    match FindIndex(lines, SetsKeyOf(key))
    case Some(i) => lines[i := Entry(key, value)]
    case None => Terminated(lines) + [Entry(key, value)]
  }

  /** The correction changes nothing for a file that is empty or already ends in a newline. */
  lemma TerminatedAgrees(lines: seq<string>, key: string, value: string)
    requires |lines| == 0 || EndsInNewline(lines[|lines| - 1])
    ensures UpdateLinesTerminated(lines, key, value) == UpdateLines(lines, key, value)
  {
    if FindIndex(lines, SetsKeyOf(key)).None? {
      AppendsWhenNone(lines, SetsKeyOf(key), Entry(key, value));
    }
  }

  /** Terminating the last line gives well-formed lines that all end in a newline. */
  lemma TerminatedWellFormed(lines: seq<string>)
    requires WellFormedLines(lines)
    ensures forall j :: 0 <= j < |lines| ==> OneLine(Terminated(lines)[j]) && EndsInNewline(Terminated(lines)[j])
  {
    if |lines| > 0 && !EndsInNewline(lines[|lines| - 1]) {
      var n := |lines| - 1;
      assert OneLine(lines[n]);
      OneLineJoin(lines[n], "\n");
    }
  }

  /** A newline at the end of a line does not change the key it sets. */
  lemma NewlineKeepsKey(line: string, key: string)
    ensures SetsKey(line + "\n", key) <==> SetsKey(line, key)
  {
    StripNewline(line);
  }

  /** Terminating the last line changes no line's key. */
  lemma TerminatedKeepsKeys(lines: seq<string>, key: string)
    requires FindIndex(lines, SetsKeyOf(key)).None?
    ensures FindIndex(Terminated(lines), SetsKeyOf(key)).None?
  {
    if |lines| > 0 && !EndsInNewline(lines[|lines| - 1]) {
      var n := |lines| - 1;
      NewlineKeepsKey(lines[n], key);
      assert !SetsKeyOf(key)(lines[n] + "\n");
      NoMatchUpdate(lines, SetsKeyOf(key), n, lines[n] + "\n");
    }
  }

  /** A line ending in a newline can replace any line of well-formed lines. */
  lemma WellFormedReplace(lines: seq<string>, i: nat, line: string)
    requires WellFormedLines(lines) && i < |lines| && OneLine(line) && EndsInNewline(line)
    ensures WellFormedLines(lines[i := line])
  {
    var u := lines[i := line];
    forall j | 0 <= j < |u|
      ensures OneLine(u[j]) && (j < |u| - 1 ==> EndsInNewline(u[j]))
    {
      if j != i {
        assert u[j] == lines[j];
      }
    }
  }

  /** Replacing the first line setting the key: the file reads back as the new lines, and the entry is the first line setting the key. */
  lemma ReplacedReadsBack(lines: seq<string>, key: string, value: string, i: nat)
    requires WellFormedLines(lines) && PlainKey(key) && '\n' !in value
    requires FirstMatch(lines, SetsKeyOf(key), i)
    ensures ReadLines(Concat(lines[i := Entry(key, value)])) == lines[i := Entry(key, value)]
    ensures FirstMatch(lines[i := Entry(key, value)], SetsKeyOf(key), i)
  {
    EntrySetsKey(key, value);
    EntryIsLine(key, value);
    FirstMatchReplace(lines, SetsKeyOf(key), i, Entry(key, value));
    WellFormedReplace(lines, i, Entry(key, value));
    ReadConcatLines(lines[i := Entry(key, value)]);
  }

  /** Appending after the terminated lines: the file reads back as the new lines, and the entry is the first line setting the key. */
  lemma AppendedReadsBack(lines: seq<string>, key: string, value: string)
    requires WellFormedLines(lines) && PlainKey(key) && '\n' !in value
    requires FindIndex(lines, SetsKeyOf(key)).None?
    ensures ReadLines(Concat(Terminated(lines) + [Entry(key, value)])) == Terminated(lines) + [Entry(key, value)]
    ensures FirstMatch(Terminated(lines) + [Entry(key, value)], SetsKeyOf(key), |lines|)
  {
    var t, e := Terminated(lines), Entry(key, value);
    EntrySetsKey(key, value);
    EntryIsLine(key, value);
    TerminatedWellFormed(lines);
    TerminatedKeepsKeys(lines, key);
    FirstMatchAppend(t, SetsKeyOf(key), e);
    WellFormedAppend(t, e);
    ReadConcatLines(t + [e]);
  }

  /**
   * With the last line terminated, reading the written file back finds the
   * entry as the first line setting the key, whether it replaced a line or
   * was appended.
   */
  lemma UpdateTerminatedReadsBack(lines: seq<string>, key: string, value: string)
    requires WellFormedLines(lines) && PlainKey(key) && '\n' !in value
    ensures var r := ReadLines(Concat(UpdateLinesTerminated(lines, key, value)));
      exists i: nat :: FirstMatch(r, SetsKeyOf(key), i) && r[i] == Entry(key, value)
  {
    var f, e := SetsKeyOf(key), Entry(key, value);
    match FindIndex(lines, f)
    case Some(i) =>
      assert FirstMatch(lines, f, i);
      ReplacedReadsBack(lines, key, value, i);
      var r := lines[i := e];
      assert FirstMatch(r, f, i) && r[i] == e;
    case None =>
      AppendedReadsBack(lines, key, value);
      var r := Terminated(lines) + [e];
      assert FirstMatch(r, f, |lines|) && r[|lines|] == e;
  }
}
