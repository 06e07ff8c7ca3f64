/**
 * The two command-line front ends of the Touchstone tools: how they read
 * the folders to run, when they stop before running anything, and the Jira
 * summary they print per execution (a bullet list in TouchstoneCL, a table
 * in TouchstoneExecutionStarter).
 */
module Reports {
  import opened Wrappers
  import opened Strings
  import opened Decimal
  import opened KnownTargets
  import opened Touchstone

  // ------------------------------------------------------- typed folders

  /** Each piece stripped, empty pieces dropped, order kept. */
  function Folders(pieces: seq<string>): seq<string> {
    if pieces == [] then []
    else
      var f := Strip(pieces[|pieces| - 1]);
      Folders(pieces[..|pieces| - 1]) + (if f != "" then [f] else [])
  }

  /** The folders typed at the prompt: the line split on single spaces. */
  function SplitFolders(line: string): seq<string> {
    Folders(Split(line, ' '))
  }

  /** A folder as the prompt keeps it: not empty, no whitespace at either end. */
  predicate CleanFolder(f: string) {
    f != "" && !IsSpace(f[0]) && !IsSpace(f[|f| - 1])
  }

  /** Every folder is clean: not empty and not padded with whitespace. */
  lemma {:induction false} FoldersClean(pieces: seq<string>)
    ensures forall k :: 0 <= k < |Folders(pieces)| ==> CleanFolder(Folders(pieces)[k])
    decreases |pieces|
  {
    if pieces != [] {
      var init := pieces[..|pieces| - 1];
      var f := Strip(pieces[|pieces| - 1]);
      FoldersClean(init);
      var r := Folders(pieces);
      var earlier := Folders(init);
      assert r == earlier + (if f != "" then [f] else []);
      forall k | 0 <= k < |r|
        ensures CleanFolder(r[k])
      {
        if k < |earlier| {
          assert r[k] == earlier[k];
        }
      }
    }
  }

  /** A character no piece holds is in no folder. */
  lemma {:induction false} FoldersAvoid(pieces: seq<string>, c: char)
    requires forall i :: 0 <= i < |pieces| ==> c !in pieces[i]
    ensures forall k :: 0 <= k < |Folders(pieces)| ==> c !in Folders(pieces)[k]
    decreases |pieces|
  {
    if pieces != [] {
      var init := pieces[..|pieces| - 1];
      var last := pieces[|pieces| - 1];
      FoldersAvoid(init, c);
      StripWithin(last, c);
      var r := Folders(pieces);
      var earlier := Folders(init);
      assert r == earlier + (if Strip(last) != "" then [Strip(last)] else []);
      forall k | 0 <= k < |r|
        ensures c !in r[k]
      {
        if k < |earlier| {
          assert r[k] == earlier[k];
        }
      }
    }
  }

  /** Typed folders never contain a space: the line was split on every one of them. */
  lemma SplitFoldersNoSpace(line: string)
    ensures forall k :: 0 <= k < |SplitFolders(line)| ==> CleanFolder(SplitFolders(line)[k]) && ' ' !in SplitFolders(line)[k]
  {
    FoldersClean(Split(line, ' '));
    FoldersAvoid(Split(line, ' '), ' ');
  }

  /** A folder name without any whitespace. */
  predicate Word(w: string) {
    w != "" && forall c :: 0 <= c < |w| ==> !IsSpace(w[c])
  }

  /** Folders without whitespace, typed with single spaces between them, are read back unchanged. */
  lemma {:induction false} SplitFoldersOfWords(words: seq<string>)
    requires forall k :: 0 <= k < |words| ==> Word(words[k])
    ensures SplitFolders(Join(words, " ")) == words
  {
    if words == [] {
      assert Split("", ' ') == [""];
      assert Strip("") == "";
    } else {
      forall k | 0 <= k < |words|
        ensures ' ' !in words[k]
      {
        assert Word(words[k]) && IsSpace(' ');
      }
      SplitJoin(words, ' ');
      FoldersOfStripped(words);
    }
  }

  lemma {:induction false} FoldersOfStripped(words: seq<string>)
    requires forall k :: 0 <= k < |words| ==> Word(words[k])
    ensures Folders(words) == words
    decreases |words|
  {
    if words != [] {
      var init := words[..|words| - 1];
      var w := words[|words| - 1];
      assert Word(w);
      StripUnchanged(w);
      assert forall k :: 0 <= k < |init| ==> init[k] == words[k];
      FoldersOfStripped(init);
      assert Folders(words) == init + [w];
      assert words == init + [w];
    }
  }

  /** Folder arguments, or the folders typed at the prompt when there are none. */
  function FoldersToRun(args: seq<string>, typed: string): (r: seq<string>)
    ensures args != [] ==> r == args
    ensures args == [] ==> r == SplitFolders(typed)
  {
    if |args| == 0 then SplitFolders(typed) else args
  }

  // ----------------------------------------------------------- resolving

  /** The property set the targets are resolved in. */
  function Kind(production: bool): string {
    if production then "production" else "dev"
  }

  /** `getExecutionTarget` of every folder, in order. */
  function Resolutions(known: Known, folders: seq<string>, kind: string): seq<Result<ExecutionTarget, TargetError>> {
    seq(|folders|, k requires 0 <= k < |folders| => ExecutionTargetFor(known, folders[k], kind))
  }

  /** Result `i` is the first failure. */
  predicate FirstFailure(rs: seq<Result<ExecutionTarget, TargetError>>, i: int) {
    0 <= i < |rs| && rs[i].Err? && forall k :: 0 <= k < i ==> rs[k].Ok?
  }

  /** `targets` are the values of the first `|targets|` results, in order. */
  predicate ResolvedAs(rs: seq<Result<ExecutionTarget, TargetError>>, targets: seq<ExecutionTarget>) {
    |targets| <= |rs| && forall k :: 0 <= k < |targets| ==> rs[k] == Ok(targets[k])
  }

  lemma ResolvedAsSnoc(rs: seq<Result<ExecutionTarget, TargetError>>, targets: seq<ExecutionTarget>, t: ExecutionTarget)
    requires ResolvedAs(rs, targets) && |targets| < |rs| && rs[|targets|] == Ok(t)
    ensures ResolvedAs(rs, targets + [t])
  {
    var more := targets + [t];
    forall k | 0 <= k < |more|
      ensures rs[k] == Ok(more[k])
    {
      if k < |targets| {
        assert more[k] == targets[k];
      }
    }
  }

  /**
   * `getExecutionTarget` for each folder in turn: the targets in the order
   * the folders were given, or the error of the first folder that fails.
   */
  method ResolveTargets(known: Known, folders: seq<string>, kind: string)
    returns (r: Result<seq<ExecutionTarget>, TargetError>)
    ensures var rs := Resolutions(known, folders, kind);
      r.Ok? ==> |r.value| == |folders| && ResolvedAs(rs, r.value)
    ensures var rs := Resolutions(known, folders, kind);
      r.Err? ==> exists i :: FirstFailure(rs, i) && rs[i] == Err(r.error)
  {
    ghost var rs := Resolutions(known, folders, kind);
    var targets: seq<ExecutionTarget> := [];
    for i := 0 to |folders|
      invariant |targets| == i && ResolvedAs(rs, targets)
    {
      var t := GetExecutionTarget(known, folders[i], kind);
      assert rs[i] == t;
      if t.Err? {
        assert FirstFailure(rs, i);
        return Err(t.error);
      }
      ResolvedAsSnoc(rs, targets, t.value);
      targets := targets + [t.value];
    }
    r := Ok(targets);
  }

  // ------------------------------------------------------ front-end exits

  /** What the front end does after reading its arguments. */
  datatype Start = ListAndExit | UsageAndExit | Proceed

  /** `--list` lists and exits, no target prints the usage hint and exits, anything else runs. */
  function StartFor(list: bool, targets: seq<string>): (r: Start)
    ensures r.Proceed? ==> targets != []
  {
    if list then ListAndExit
    else if |targets| == 0 then UsageAndExit
    else Proceed
  }

  /** The exit status a decision ends with, `None` when the run goes on. */
  function ExitStatus(s: Start): (r: Option<int>)
    ensures r.None? <==> s.Proceed?
    ensures r.Some? ==> r.value == 0 || r.value == 1
  {
    match s
    case ListAndExit => Some(0)
    case UsageAndExit => Some(1)
    case Proceed => None
  }

  /** Listing exits 0 and wins over everything; no target exits 1; otherwise nothing exits. */
  lemma StartExits(list: bool, targets: seq<string>)
    ensures ExitStatus(StartFor(list, targets)) == Some(0) <==> list
    ensures ExitStatus(StartFor(list, targets)) == Some(1) <==> !list && targets == []
    ensures ExitStatus(StartFor(list, targets)).None? <==> !list && targets != []
  {
  }

  /** The Jira summary is printed only after a run that waited for its executions and was asked for it. */
  function ShowsJiraSummary(startOnly: bool, jiraTable: bool): (r: bool)
    ensures r ==> jiraTable && !startOnly
  {
    !startOnly && jiraTable
  }

  // ------------------------------------------------------------ Jira list

  const LIST_HEADER: string := "### Jira list ###"
  const TABLE_HEADER: string := "### Jira table ###"

  const CROSS: string := "\U{274C}"
  const WARNING_SIGN: string := "\U{26A0}\U{FE0F}"
  const CHECK: string := "\U{2705}"

  /** The mark in front of an execution: failures over warnings over a pass. */
  function Glyph(e: Execution): string {
    if e.fails > 0 then CROSS else if e.warns > 0 then WARNING_SIGN else CHECK
  }

  /** `[<rel_path>](<execution page>)`. */
  function Link(e: Execution): string {
    "[" + e.target.relPath + "](" + EXECUTION_URL + e.executionId + ")"
  }

  /** The link to the execution page, with the space in front of it. */
  function LinkPiece(e: Execution): string {
    " [" + e.target.relPath + "](" + EXECUTION_URL + e.executionId + ")"
  }

  function FailuresText(e: Execution): string {
    IntToString(e.fails) + " x failures"
  }

  function WarningsText(e: Execution): string {
    "\n" + IntToString(e.warns) + " x warning"
  }

  /** ": " when there is anything to count. */
  function Colon(e: Execution): string {
    if e.fails > 0 || e.warns > 0 then ": " else ""
  }

  function ListFailures(e: Execution): string {
    if e.fails > 0 then FailuresText(e) else ""
  }

  /** ", " only between a failure count and a warning count. */
  function Comma(e: Execution): string {
    if e.fails > 0 && e.warns > 0 then ", " else ""
  }

  function ListWarnings(e: Execution): string {
    if e.warns > 0 then WarningsText(e) else ""
  }

  /** What follows the link. */
  function ListDetail(e: Execution): string {
    Colon(e) + ListFailures(e) + Comma(e) + ListWarnings(e)
  }

  /** One bullet of the Jira list. */
  function ListLine(e: Execution): string {
    "* " + Glyph(e) + LinkPiece(e) + ListDetail(e)
  }

  /** The three glyphs are different, and each one says which counts are positive. */
  lemma GlyphMeaning(e: Execution)
    ensures Glyph(e) == CROSS <==> e.fails > 0
    ensures Glyph(e) == WARNING_SIGN <==> e.fails <= 0 && e.warns > 0
    ensures Glyph(e) == CHECK <==> e.fails <= 0 && e.warns <= 0
  {
    assert CROSS[0] != WARNING_SIGN[0] && CROSS[0] != CHECK[0] && WARNING_SIGN[0] != CHECK[0];
  }

  /**
   * The bullet is "* ", the glyph and the link, then the detail; the
   * detail is empty exactly for a clean run, and otherwise it is ": "
   * followed by the failure count, the warning count, or both with ", "
   * between them.
   */
  lemma ListLineParts(e: Execution)
    ensures LinkPiece(e) == " " + Link(e)
    ensures ListDetail(e) == "" <==> e.fails <= 0 && e.warns <= 0
    ensures e.fails > 0 && e.warns > 0 ==> ListDetail(e) == ": " + FailuresText(e) + ", " + WarningsText(e)
    ensures e.fails > 0 && e.warns <= 0 ==> ListDetail(e) == ": " + FailuresText(e)
    ensures e.fails <= 0 && e.warns > 0 ==> ListDetail(e) == ": " + WarningsText(e)
  {
    var f, w := FailuresText(e), WarningsText(e);
    if e.fails > 0 && e.warns <= 0 {
      assert ": " + f + "" + "" == ": " + f;
    } else if e.fails <= 0 && e.warns > 0 {
      assert ": " + "" + "" == ": ";
    } else if e.fails <= 0 && e.warns <= 0 {
      assert "" + "" + "" + "" == "";
    }
  }

  /** One bullet, built with the appends the front end makes. */
  method ListLineOf(e: Execution) returns (line: string)
    ensures line == ListLine(e)
  {
    line := "* ";
    if e.fails > 0 {
      line := line + CROSS;
    } else if e.warns > 0 {
      line := line + WARNING_SIGN;
    } else {
      line := line + CHECK;
    }
    line := line + (" [" + e.target.relPath + "](" + EXECUTION_URL + e.executionId + ")");
    ghost var head := line;
    if e.fails > 0 || e.warns > 0 {
      line := line + ": ";
      if e.fails > 0 {
        line := line + (IntToString(e.fails) + " x failures");
        if e.warns > 0 {
          line := line + ", ";
        }
      }
      if e.warns > 0 {
        line := line + ("\n" + IntToString(e.warns) + " x warning");
      }
    }
    DetailAppended(head, line, e);
  }

  /** Appending the pieces one by one gives the head followed by the detail. */
  lemma DetailAppended(head: string, line: string, e: Execution)
    requires e.fails > 0 && e.warns > 0 ==> line == head + ": " + FailuresText(e) + ", " + WarningsText(e)
    requires e.fails > 0 && e.warns <= 0 ==> line == head + ": " + FailuresText(e)
    requires e.fails <= 0 && e.warns > 0 ==> line == head + ": " + WarningsText(e)
    requires e.fails <= 0 && e.warns <= 0 ==> line == head
    ensures line == head + ListDetail(e)
  {
    var f, w := FailuresText(e), WarningsText(e);
    if e.fails > 0 && e.warns > 0 {
      Assoc(head, ": ", f);
      Assoc(head, ": " + f, ", ");
      Assoc(head, ": " + f + ", ", w);
    } else if e.fails > 0 {
      assert ListDetail(e) == ": " + f + "" + "" by {
        assert ": " + f + "" + "" == ": " + f;
      }
      Assoc(head, ": ", f);
    } else if e.warns > 0 {
      assert ListDetail(e) == ": " + "" + "" + w by {
        assert ": " + "" + "" == ": ";
      }
      Assoc(head, ": ", w);
    } else {
      assert head + "" == head;
    }
  }

  /** The Jira list: the header, then one bullet per execution in the order they were started. */
  method JiraList(execs: seq<Execution>) returns (lines: seq<string>)
    ensures |lines| == |execs| + 1 && lines[0] == LIST_HEADER
    ensures forall i :: 0 <= i < |execs| ==> lines[i + 1] == ListLine(execs[i])
  {
    lines := [LIST_HEADER];
    for i := 0 to |execs|
      invariant |lines| == i + 1 && lines[0] == LIST_HEADER
      invariant forall k :: 0 <= k < i ==> lines[k + 1] == ListLine(execs[k])
    {
      var line := ListLineOf(execs[i]);
      lines := lines + [line];
    }
  }

  // ----------------------------------------------------------- Jira table

  /** The status cell: "(/)" for a pass, "(x)" for any other status. */
  function StatusMark(e: Execution): string {
    if e.status == PASSED then "(/)" else "(x)"
  }

  /** The failure count on a line of its own, when there are failures. */
  function TableFailures(e: Execution): string {
    if e.fails > 0 then "\n" + IntToString(e.fails) + " x failures" else ""
  }

  /** The warning count on a line of its own, when there are warnings. */
  function TableWarnings(e: Execution): string {
    if e.warns > 0 then "\n" + IntToString(e.warns) + " x warning" else ""
  }

  /** The closing cells: two empty ones and the link to the execution. */
  function TableEnd(e: Execution): string {
    "| | |[" + EXECUTION_URL + e.executionId + "]|"
  }

  /** One row of the Jira table. */
  function TableRow(e: Execution): string {
    "|" + e.target.relPath + "|" + StatusMark(e) + TableFailures(e) + TableWarnings(e) + TableEnd(e)
  }

  /**
   * A row opens with the folder cell and the status mark, which is "(/)"
   * exactly for a pass, and closes with the link cell; between them stand
   * the counts, which are there exactly when one of them is positive.
   */
  lemma TableRowParts(e: Execution)
    ensures var row := TableRow(e); var rel := e.target.relPath; var counts := TableFailures(e) + TableWarnings(e);
      StartsWith(row, "|" + rel + "|") &&
      |row| == |rel| + 5 + |counts| + |TableEnd(e)| &&
      (row[|rel| + 2..|rel| + 5] == "(/)" <==> e.status == PASSED) &&
      row[|rel| + 5..|row| - |TableEnd(e)|] == counts &&
      EndsWith(row, TableEnd(e)) &&
      (counts == "" <==> e.fails <= 0 && e.warns <= 0)
  {
    var rel := e.target.relPath;
    var row := TableRow(e);
    var head := "|" + rel + "|";
    var mark := StatusMark(e);
    var counts := TableFailures(e) + TableWarnings(e);
    var end := TableEnd(e);
    Assoc(head + mark, TableFailures(e), TableWarnings(e));
    assert row == (head + mark) + counts + end;
    Parts3(head + mark, counts, end);
    Parts3(head, mark, []);
    assert row[..|head|] == (head + mark)[..|head|] == head;
    assert row[|head|..|head| + 3] == (head + mark)[|head|..] == mark;
    assert "(/)"[1] != "(x)"[1];
  }

  lemma Assoc(a: string, b: string, c: string)
    ensures a + b + c == a + (b + c)
  {
  }

  /** Cutting a concatenation of three strings at their borders gives the three back. */
  lemma Parts3(a: string, b: string, c: string)
    ensures var s := a + b + c; s[..|a|] == a && s[|a|..|a| + |b|] == b && s[|a| + |b|..] == c
  {
  }

  /** One row, built with the appends the front end makes. */
  method TableRowOf(e: Execution) returns (line: string)
    ensures line == TableRow(e)
  {
    line := "|" + e.target.relPath + "|";
    line := line + (if e.status == PASSED then "(/)" else "(x)");
    if e.fails > 0 {
      line := line + ("\n" + IntToString(e.fails) + " x failures");
    }
    if e.warns > 0 {
      line := line + ("\n" + IntToString(e.warns) + " x warning");
    }
    line := line + ("| | |[" + EXECUTION_URL + e.executionId + "]|");
  }

  /** The Jira table: the header, then one row per execution in the order they were started. */
  method JiraTable(execs: seq<Execution>) returns (lines: seq<string>)
    ensures |lines| == |execs| + 1 && lines[0] == TABLE_HEADER
    ensures forall i :: 0 <= i < |execs| ==> lines[i + 1] == TableRow(execs[i])
  {
    lines := [TABLE_HEADER];
    for i := 0 to |execs|
      invariant |lines| == i + 1 && lines[0] == TABLE_HEADER
      invariant forall k :: 0 <= k < i ==> lines[k + 1] == TableRow(execs[k])
    {
      var line := TableRowOf(execs[i]);
      lines := lines + [line];
    }
  }
}
