/**
 * UpVersionNumbers/upversionnumbers.py: raise the patch number of every
 * `<version value="major.minor.patch"/>` element in the XML files changed
 * against a branch.
 */
module UpVersion {
  import opened Wrappers
  import opened Strings
  import opened Decimal

  // ----------------------------------------------------------- argument check

  /** The script runs only with exactly one argument (the branch); otherwise it prints usage and exits with 1. */
  function UsageExit(argv: seq<string>): (r: Option<int>)
    ensures r.Some? <==> |argv| != 2
    ensures r.Some? ==> r.value == 1
  {
    if |argv| != 2 then Some(1) else None
  }

  // ------------------------------------------------------------ file filter

  /** A changed path the script processes: its lower-cased form ends in ".xml". */
  predicate IsXmlPath(f: string) {
    EndsWith(Lower(f), ".xml")
  }

  /** `[f for f in lines if f.lower().endswith(".xml")]`. */
  function XmlOnly(lines: seq<string>): (r: seq<string>)
    ensures |r| <= |lines|
  {
    if lines == [] then []
    else
      var init := XmlOnly(lines[..|lines| - 1]);
      var last := lines[|lines| - 1];
      if IsXmlPath(last) then init + [last] else init
  }

  /** The paths in `git diff --name-only` output that the script goes on to process. */
  function ChangedXmlFiles(stdout: string): seq<string> {
    XmlOnly(Split(stdout, '\n'))
  }

  /** Exactly the XML paths are kept, and a list of XML paths only is kept whole. */
  lemma {:induction false} XmlOnlyKeeps(lines: seq<string>)
    ensures forall f :: f in XmlOnly(lines) <==> f in lines && IsXmlPath(f)
    ensures (forall i :: 0 <= i < |lines| ==> IsXmlPath(lines[i])) ==> XmlOnly(lines) == lines
  {
    if lines != [] {
      var init := lines[..|lines| - 1];
      XmlOnlyKeeps(init);
      assert lines == init + [lines[|lines| - 1]];
    }
  }

  /** Filtering keeps the order: the kept paths of two parts are the kept paths of the first, then of the second. */
  lemma {:induction false} XmlOnlyConcat(a: seq<string>, b: seq<string>)
    ensures XmlOnly(a + b) == XmlOnly(a) + XmlOnly(b)
  {
    if b == [] {
      assert a + b == a;
    } else {
      var init := b[..|b| - 1];
      XmlOnlyConcat(a, init);
      assert (a + b)[..|a + b| - 1] == a + init;
    }
  }

  // ------------------------------------------------------------ version tag

  // One match of the pattern
  // `(<\s*version\s+value\s*=\s*["'][0-9]+\.[0-9]+\.)([0-9]+)(["']\s*/>)`,
  // by its parts: the whitespace runs, the quotes and the three numbers.
  datatype VersionTag = VersionTag(
    ws1: string, ws2: string, ws3: string, ws4: string,
    open: char, major: string, minor: string, patch: string,
    close: char, ws5: string)

  predicate AllSpace(s: string) {
    forall i :: 0 <= i < |s| ==> IsSpace(s[i])
  }

  predicate IsNumber(s: string) {
    |s| >= 1 && AllDigits(s)
  }

  predicate IsQuote(c: char) {
    c == '"' || c == '\''
  }

  /** The parts fit the pattern. */
  predicate WellFormed(t: VersionTag) {
    AllSpace(t.ws1) && AllSpace(t.ws2) && |t.ws2| >= 1 && AllSpace(t.ws3) && AllSpace(t.ws4) && AllSpace(t.ws5) &&
    IsQuote(t.open) && IsQuote(t.close) && IsNumber(t.major) && IsNumber(t.minor) && IsNumber(t.patch)
  }

  /** Group 1: everything up to and including the dot before the patch number. */
  function Group1(t: VersionTag): string {
    "<" + t.ws1 + "version" + t.ws2 + "value" + t.ws3 + "=" + t.ws4 + [t.open] + t.major + "." + t.minor + "."
  }

  /** Group 3: the closing quote and `/>`. */
  function Group3(t: VersionTag): string {
    [t.close] + t.ws5 + "/>"
  }

  /** The text the match covers. */
  function Text(t: VersionTag): string {
    Group1(t) + t.patch + Group3(t)
  }

  /**
   * `increasePatch`: group 1, then the patch number plus one in decimal,
   * then group 3. The prefix and suffix come back as they were and the
   * middle is the next number, written without leading zeros.
   */
  function IncreasePatch(g1: string, g2: string, g3: string): (r: string)
    requires IsNumber(g2)
    ensures |g1| + |g3| < |r| && r[..|g1|] == g1 && r[|r| - |g3|..] == g3
    ensures var mid := r[|g1|..|r| - |g3|];
      IsNumber(mid) && DigitsValue(mid) == DigitsValue(g2) + 1 && mid[0] != '0'
  {
    var mid := NatToString(DigitsValue(g2) + 1);
    DigitsValueOfNatToString(DigitsValue(g2) + 1);
    var r := g1 + mid + g3;
    assert r[..|g1|] == g1 && r[|r| - |g3|..] == g3;
    assert r[|g1|..|r| - |g3|] == mid;
    r
  }

  /** The tag with its patch number one higher. */
  function Bumped(t: VersionTag): VersionTag
    requires WellFormed(t)
  {
    t.(patch := NatToString(DigitsValue(t.patch) + 1))
  }

  /**
   * Replacing a match changes only its patch number: the result is again
   * a match, with the same whitespace, quotes, major and minor.
   */
  lemma IncreasePatchOnlyPatch(t: VersionTag)
    requires WellFormed(t)
    ensures IncreasePatch(Group1(t), t.patch, Group3(t)) == Text(Bumped(t))
    ensures WellFormed(Bumped(t)) && DigitsValue(Bumped(t).patch) == DigitsValue(t.patch) + 1
  {
    DigitsValueOfNatToString(DigitsValue(t.patch) + 1);
  }

  /** Leading zeros are not kept: "007" becomes "8". */
  lemma LeadingZerosDropped()
    ensures IncreasePatch("<version value=\"1.0.", "007", "\"/>") == "<version value=\"1.0.8\"/>"
  {
    assert "007"[..2] == "00" && "00"[..1] == "0" && "0"[..0] == "";
    assert DigitsValue("007") == 7;
    assert NatToString(8) == "8";
  }

  // ------------------------------------------------------ substitution

  /** A file as the pattern splits it: text between matches, and the matches. */
  datatype Segment = Plain(text: string) | Match(tag: VersionTag)

  predicate AllWellFormed(segs: seq<Segment>) {
    forall i :: 0 <= i < |segs| && segs[i].Match? ==> WellFormed(segs[i].tag)
  }

  /** The file's text. */
  function Render(segs: seq<Segment>): string {
    if segs == [] then ""
    else Render(segs[..|segs| - 1]) + (match segs[|segs| - 1] case Plain(s) => s case Match(t) => Text(t))
  }

  /** How many matches the file has. */
  function Count(segs: seq<Segment>): nat {
    if segs == [] then 0
    else Count(segs[..|segs| - 1]) + (if segs[|segs| - 1].Match? then 1 else 0)
  }

  /** `version_re.subn(increasePatch, content)`: the new text and the number of replacements. */
  function SubN(segs: seq<Segment>): (r: (string, nat))
    requires AllWellFormed(segs)
    ensures r.1 == Count(segs)
  {
    if segs == [] then ("", 0)
    else
      var (text, n) := SubN(segs[..|segs| - 1]);
      match segs[|segs| - 1]
      case Plain(s) => (text + s, n)
      case Match(t) => (text + IncreasePatch(Group1(t), t.patch, Group3(t)), n + 1)
  }

  /** The file with every match's patch number raised and nothing else touched. */
  function BumpAll(segs: seq<Segment>): (r: seq<Segment>)
    requires AllWellFormed(segs)
    ensures |r| == |segs|
    ensures forall i :: 0 <= i < |segs| ==> r[i] == (if segs[i].Match? then Match(Bumped(segs[i].tag)) else segs[i])
  {
    if segs == [] then []
    else
      var last := segs[|segs| - 1];
      BumpAll(segs[..|segs| - 1]) + [if last.Match? then Match(Bumped(last.tag)) else last]
  }

  /**
   * `subn` makes one replacement per match, and its text is the file with
   * every match's patch number raised; with no match the text is unchanged.
   */
  lemma {:induction false} SubNMeaning(segs: seq<Segment>)
    requires AllWellFormed(segs)
    ensures SubN(segs).1 == Count(segs)
    ensures SubN(segs).0 == Render(BumpAll(segs))
    ensures Count(segs) == 0 ==> SubN(segs).0 == Render(segs)
  {
    if segs != [] {
      var init := segs[..|segs| - 1];
      SubNMeaning(init);
      var b := BumpAll(segs);
      assert b[..|b| - 1] == BumpAll(init);
      if segs[|segs| - 1].Match? {
        IncreasePatchOnlyPatch(segs[|segs| - 1].tag);
      }
    }
  }

  // --------------------------------------------------------------- outcome

  /** What the script reports for one file. */
  datatype Outcome = NothingToDo | Done | MoreThanOne

  /** The report for a file and, when it is rewritten, its new content. */
  datatype FileResult = FileResult(outcome: Outcome, written: Option<string>)

  /** The per-file step after the substitution. */
  function ProcessFile(segs: seq<Segment>): (r: FileResult)
    requires AllWellFormed(segs)
    ensures r.written.Some? <==> Count(segs) > 0
    ensures r.outcome == Done <==> Count(segs) == 1
  {
    var (text, n) := SubN(segs);
    if n == 0 then FileResult(NothingToDo, None)
    else FileResult(if n == 1 then Done else MoreThanOne, Some(text))
  }

  /** The line printed for a file. */
  function Message(o: Outcome, path: string): string {
    match o
    case NothingToDo => "nothing to do: " + path
    case Done => "done: " + path
    case MoreThanOne => "WARNING: more than one replacement: " + path
  }

  /**
   * A file is rewritten exactly when it has a match, and then with every
   * patch number raised; the report is "nothing to do" for no match,
   * "done" for one and a warning for more.
   */
  lemma ProcessFileOutcome(segs: seq<Segment>)
    requires AllWellFormed(segs)
    ensures ProcessFile(segs).written.Some? <==> Count(segs) > 0
    ensures ProcessFile(segs).written.Some? ==> ProcessFile(segs).written.value == Render(BumpAll(segs))
    ensures ProcessFile(segs).outcome == NothingToDo <==> Count(segs) == 0
    ensures ProcessFile(segs).outcome == Done <==> Count(segs) == 1
    ensures ProcessFile(segs).outcome == MoreThanOne <==> Count(segs) > 1
  {
    SubNMeaning(segs);
  }

  /** Only the report for more than one replacement is a warning. */
  lemma MessageWarns(o: Outcome, path: string)
    ensures StartsWith(Message(o, path), "WARNING") <==> o == MoreThanOne
  {
    var m := Message(o, path);
    match o {
      case MoreThanOne =>
        var head := "WARNING: more than one replacement: ";
        assert m == head + path;
        assert m[..7] == head[..7];
      case NothingToDo =>
        assert m[0] == 'n' && m[..7][0] == m[0];
      case Done =>
        assert m[0] == 'd' && (|m| < 7 || m[..7][0] == m[0]);
    }
  }

  /** Every report names the file it is about, at its end. */
  lemma MessageNamesFile(o: Outcome, path: string)
    ensures EndsWith(Message(o, path), path)
  {
    var m := Message(o, path);
    assert m[|m| - |path|..] == path;
  }
}
