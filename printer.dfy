/**
 * CheckDisplayValues/CheckDisplayValues/Printer.cs: for every display
 * value of a file, decide whether it is reported, as a warning or as an
 * error, with the file name printed once before the first report. The
 * console becomes a list of lines.
 */
module Printing {
  import opened Wrappers
  import opened Strings
  import opened DisplayValues

  datatype Level = Warning | Error

  /** What reaches the console: the file header, or one report with its level. */
  datatype Line = Header(fileName: string) | Report(level: Level, text: string)

  /** The exception that ends the loop: a member call on `null`, or `Any` over a `null` list. */
  datatype Crash = NullReference | ArgumentNull

  function CouldNotFind(code: string): string {
    "Could not find " + code
  }

  function NoTranslation(code: string): string {
    "No translation available for code \"" + code + "\", please check manually"
  }

  function ShouldBe(code: string, original: string, nts: string): string {
    code + ":\"" + original + "\" Should be:\"" + nts + "\" "
  }

  /**
   * The report `PrintMessage` writes after the header: a missing current
   * display is "could not find"; a display that differs from the suggestion
   * (ignoring case) is a warning when there is no suggestion and an error
   * otherwise; an equal one is not reported.
   */
  function MessageLines(original: Option<string>, nts: string, code: string): seq<Line> {
    if original.None? then [Report(Warning, CouldNotFind(code))]
    else if Lower(original.value) != Lower(nts) then
      if nts == "" then [Report(Warning, NoTranslation(code))]
      else [Report(Error, ShouldBe(code, original.value, nts))]
    else []
  }

  /** The classification, both ways. */
  lemma MessageClassification(original: Option<string>, nts: string, code: string)
    ensures |MessageLines(original, nts, code)| <= 1
    ensures MessageLines(original, nts, code) == [] <==> original.Some? && Lower(original.value) == Lower(nts)
    ensures (exists t :: MessageLines(original, nts, code) == [Report(Error, t)]) <==>
      original.Some? && Lower(original.value) != Lower(nts) && nts != ""
    ensures MessageLines(original, nts, code) == [Report(Warning, NoTranslation(code))] <==>
      original.Some? && Lower(original.value) != Lower(nts) && nts == ""
  {
    if original.None? {
      assert CouldNotFind(code) != NoTranslation(code) by {
        assert CouldNotFind(code)[0] == 'C' && NoTranslation(code)[0] == 'N';
      }
    }
  }

  /**
   * `Any(x => x.Display.ToLower() == displayCurrent.ToLower())`, in C#'s
   * order: a missing display, or a missing current display, throws at the
   * first element that gets that far.
   */
  function AnyDisplayMatches(ts: seq<Translation>, current: Option<string>): Result<bool, Crash> {
    if ts == [] then Ok(false)
    else if ts[0].display.None? || current.None? then Err(NullReference)
    else if Lower(ts[0].display.value) == Lower(current.value) then Ok(true)
    else AnyDisplayMatches(ts[1..], current)
  }

  /** Translation `i` matches the current display, ignoring case. */
  predicate MatchesAt(ts: seq<Translation>, current: string, i: int) {
    0 <= i < |ts| && ts[i].display.Some? && Lower(ts[i].display.value) == Lower(current)
  }

  /**
   * Without missing displays, the search answers exactly whether some
   * translation matches; it throws only when a display before the first
   * match, or the current display, is missing.
   */
  lemma {:induction false} AnyDisplayMatchesMeaning(ts: seq<Translation>, current: Option<string>)
    ensures current.Some? && (forall i :: 0 <= i < |ts| ==> ts[i].display.Some?) ==>
      AnyDisplayMatches(ts, current) == Ok(exists i :: MatchesAt(ts, current.value, i))
    ensures AnyDisplayMatches(ts, current) == Ok(true) ==> current.Some? && exists i :: MatchesAt(ts, current.value, i)
    ensures AnyDisplayMatches(ts, current) == Ok(false) ==> ts == [] || (current.Some? && forall i :: 0 <= i < |ts| ==> !MatchesAt(ts, current.value, i))
    decreases |ts|
  {
    if ts != [] && ts[0].display.Some? && current.Some? {
      AnyDisplayMatchesMeaning(ts[1..], current);
      if Lower(ts[0].display.value) == Lower(current.value) {
        assert MatchesAt(ts, current.value, 0);
      } else {
        forall i | 1 <= i < |ts|
          ensures MatchesAt(ts, current.value, i) <==> MatchesAt(ts[1..], current.value, i - 1)
        {
          assert ts[1..][i - 1] == ts[i];
        }
        if forall i :: 0 <= i < |ts| ==> ts[i].display.Some? {
          forall i | 0 <= i < |ts[1..]|
            ensures ts[1..][i].display.Some?
          {
            assert ts[1..][i] == ts[i + 1];
          }
        }
        assert !MatchesAt(ts, current.value, 0);
        if exists i :: MatchesAt(ts, current.value, i) {
          var i :| MatchesAt(ts, current.value, i);
          assert MatchesAt(ts[1..], current.value, i - 1);
        }
        if exists j :: MatchesAt(ts[1..], current.value, j) {
          var j :| MatchesAt(ts[1..], current.value, j);
          assert MatchesAt(ts, current.value, j + 1);
        }
      }
    }
  }

  /** Translation `i` is the first one in `ts` with that use. */
  predicate FirstUse(ts: seq<Translation>, use: string, i: int) {
    0 <= i < |ts| && HasUse(ts[i], use) && forall j :: 0 <= j < i ==> !HasUse(ts[j], use)
  }

  /** `Find(t => t.Use == use)`: the first translation with that use. */
  function FindUse(ts: seq<Translation>, use: string): (r: Option<Translation>)
    ensures r.Some? ==> r.value in ts && HasUse(r.value, use)
    ensures r.Some? ==> exists i :: FirstUse(ts, use, i) && ts[i] == r.value
    ensures r.None? ==> forall i :: 0 <= i < |ts| ==> !HasUse(ts[i], use)
  {
    if ts == [] then None
    else if HasUse(ts[0], use) then
      assert FirstUse(ts, use, 0);
      Some(ts[0])
    else
      var r := FindUse(ts[1..], use);
      assert forall i :: 1 <= i < |ts| ==> ts[1..][i - 1] == ts[i];
      if r.Some? then
        var i :| FirstUse(ts[1..], use, i) && ts[1..][i] == r.value;
        assert FirstUse(ts, use, i + 1);
        r
      else r
  }

  /** The text `?.Display ?? ""` takes from a found translation. */
  function DisplayOf(found: Option<Translation>): (text: string)
    ensures found.None? || found.value.display.None? ==> text == ""
    ensures found.Some? && found.value.display.Some? ==> text == found.value.display.value
  {
    if found.Some? && found.value.display.Some? then found.value.display.value else ""
  }

  /** `(Find ZiB ?? Find display ?? Find "Fully specified name" ?? Find "Preferred For Language")?.Display ?? ""`. */
  function Suggestion(ts: seq<Translation>): string {
    var found :=
      if FindUse(ts, "ZiB").Some? then FindUse(ts, "ZiB")
      else if FindUse(ts, "display").Some? then FindUse(ts, "display")
      else if FindUse(ts, "Fully specified name").Some? then FindUse(ts, "Fully specified name")
      else FindUse(ts, "Preferred For Language");
    DisplayOf(found)
  }

  /**
   * The suggestion comes from a ZiB translation if there is one, then a
   * "display", then a "Fully specified name", then a "Preferred For
   * Language"; with none of these it is empty.
   */
  lemma SuggestionOrder(ts: seq<Translation>)
    ensures AnyUse(ts, "ZiB") ==> exists t :: t in ts && HasUse(t, "ZiB") && Suggestion(ts) == (if t.display.Some? then t.display.value else "")
    ensures !AnyUse(ts, "ZiB") && AnyUse(ts, "display") ==>
      exists t :: t in ts && HasUse(t, "display") && Suggestion(ts) == (if t.display.Some? then t.display.value else "")
    ensures (forall t :: t in ts ==> !HasUse(t, "ZiB") && !HasUse(t, "display") && !HasUse(t, "Fully specified name") && !HasUse(t, "Preferred For Language"))
      ==> Suggestion(ts) == ""
    ensures AnyUse(ts, "ZiB") ==>
      Suggestion(ts) == DisplayOf(FindUse(ts, "ZiB"))
    ensures !AnyUse(ts, "ZiB") && AnyUse(ts, "display") ==>
      Suggestion(ts) == DisplayOf(FindUse(ts, "display"))
    ensures !AnyUse(ts, "ZiB") && !AnyUse(ts, "display") && AnyUse(ts, "Fully specified name") ==>
      Suggestion(ts) == DisplayOf(FindUse(ts, "Fully specified name"))
    ensures !AnyUse(ts, "ZiB") && !AnyUse(ts, "display") && !AnyUse(ts, "Fully specified name") ==>
      Suggestion(ts) == DisplayOf(FindUse(ts, "Preferred For Language"))
  {
    if AnyUse(ts, "ZiB") {
      var i :| 0 <= i < |ts| && HasUse(ts[i], "ZiB");
      assert FindUse(ts, "ZiB").Some?;
    } else if AnyUse(ts, "display") {
      var i :| 0 <= i < |ts| && HasUse(ts[i], "display");
      assert FindUse(ts, "display").Some?;
    } else if AnyUse(ts, "Fully specified name") {
      var i :| 0 <= i < |ts| && HasUse(ts[i], "Fully specified name");
      assert FindUse(ts, "Fully specified name").Some?;
    }
  }

  /** What the loop body does with one display value. */
  datatype Step = Skip | Call(original: Option<string>, nts: string, code: string) | Throw(crash: Crash)

  /** The body of `PrintInconsistency` for one display value. */
  function StepFor(dv: DisplayValue): (r: Step)
    ensures r.Call? ==> r.code == dv.code
    ensures r.Call? && dv.system != "Validation" ==> r.original == dv.displayCurrent
    ensures dv.system != "Validation" && dv.displayCorrect.None? ==> r == Throw(ArgumentNull)
  {
    if dv.system == "Validation" then Call(None, "", dv.code)
    else if dv.displayCorrect.None? then Throw(ArgumentNull)
    else
      var dutch := InLanguage(dv.displayCorrect.value, "nl");
      var english := InLanguage(dv.displayCorrect.value, "en");
      if dutch != [] then
        match AnyDisplayMatches(dutch, dv.displayCurrent)
        case Err(c) => Throw(c)
        case Ok(found) => if found then Skip else Call(dv.displayCurrent, Suggestion(dutch), dv.code)
      else if english != [] then
        match AnyDisplayMatches(english, dv.displayCurrent)
        case Err(c) => Throw(c)
        case Ok(found) => if found then Skip else Throw(NullReference)
      else Call(dv.displayCurrent, "", dv.code)
  }

  /** A "Validation" entry is always reported as a warning that its code could not be found. */
  lemma ValidationWarns(dv: DisplayValue)
    requires dv.system == "Validation"
    ensures StepFor(dv).Call? && MessageLines(StepFor(dv).original, StepFor(dv).nts, StepFor(dv).code) == [Report(Warning, CouldNotFind(dv.code))]
  {
  }

  /**
   * Against Dutch translations (all with a display, and a current display
   * present), a value is reported exactly when none matches ignoring case,
   * with the Dutch suggestion.
   */
  lemma DutchDecides(dv: DisplayValue)
    requires dv.system != "Validation" && dv.displayCorrect.Some? && dv.displayCurrent.Some?
    requires InLanguage(dv.displayCorrect.value, "nl") != []
    requires forall t :: t in InLanguage(dv.displayCorrect.value, "nl") ==> t.display.Some?
    ensures var dutch := InLanguage(dv.displayCorrect.value, "nl");
      (StepFor(dv) == Skip <==> exists i :: MatchesAt(dutch, dv.displayCurrent.value, i)) &&
      (StepFor(dv) != Skip ==> StepFor(dv) == Call(dv.displayCurrent, Suggestion(dutch), dv.code))
  {
    var dutch := InLanguage(dv.displayCorrect.value, "nl");
    AnyDisplayMatchesMeaning(dutch, dv.displayCurrent);
  }

  /**
   * Without Dutch translations, English ones that do not match make the
   * loop throw: the suggestion is looked up in the Dutch list, which is
   * `null` there.
   */
  lemma EnglishBranchThrows(dv: DisplayValue)
    requires dv.system != "Validation" && dv.displayCorrect.Some? && dv.displayCurrent.Some?
    requires InLanguage(dv.displayCorrect.value, "nl") == [] && InLanguage(dv.displayCorrect.value, "en") != []
    requires forall t :: t in InLanguage(dv.displayCorrect.value, "en") ==> t.display.Some?
    requires forall i :: !MatchesAt(InLanguage(dv.displayCorrect.value, "en"), dv.displayCurrent.value, i)
    ensures StepFor(dv) == Throw(NullReference)
  {
    AnyDisplayMatchesMeaning(InLanguage(dv.displayCorrect.value, "en"), dv.displayCurrent);
  }

  /** The calls to `PrintMessage` the loop makes, and the exception that stopped it, if any. */
  function Calls(dvs: seq<DisplayValue>): (seq<Step>, Option<Crash>) {
    if dvs == [] then ([], None)
    else
      var (calls, crash) := Calls(dvs[..|dvs| - 1]);
      if crash.Some? then (calls, crash)
      else match StepFor(dvs[|dvs| - 1])
        case Skip => (calls, None)
        case Call(o, n, c) => (calls + [Call(o, n, c)], None)
        case Throw(e) => (calls, Some(e))
  }

  /** Every recorded call is a `Call` step. */
  lemma {:induction false} CallsAreCalls(dvs: seq<DisplayValue>)
    ensures forall k :: 0 <= k < |Calls(dvs).0| ==> Calls(dvs).0[k].Call?
    ensures |Calls(dvs).0| <= |dvs|
  {
    if dvs != [] {
      CallsAreCalls(dvs[..|dvs| - 1]);
    }
  }

  /** The lines the calls print: the header before the first one when nothing was printed yet, then each report. */
  function Printed(fileName: string, first: bool, calls: seq<Step>): seq<Line> {
    if calls == [] then []
    else
      var c := calls[|calls| - 1];
      Printed(fileName, first, calls[..|calls| - 1]) +
      (if |calls| == 1 && first then [Header(fileName)] else []) +
      (if c.Call? then MessageLines(c.original, c.nts, c.code) else [])
  }

  /** Only the first line can be the header, and it is there exactly when something was called with a fresh printer. */
  lemma {:induction false} PrintedHeader(fileName: string, first: bool, calls: seq<Step>)
    ensures forall i :: 0 < i < |Printed(fileName, first, calls)| ==> Printed(fileName, first, calls)[i].Report?
    ensures first && calls != [] ==> |Printed(fileName, first, calls)| > 0 && Printed(fileName, first, calls)[0] == Header(fileName)
    ensures !first ==> forall i :: 0 <= i < |Printed(fileName, first, calls)| ==> Printed(fileName, first, calls)[i].Report?
    ensures first && calls == [] ==> Printed(fileName, first, calls) == []
  {
    if calls != [] {
      PrintedHeader(fileName, first, calls[..|calls| - 1]);
      var c := calls[|calls| - 1];
      assert c.Call? ==> forall l :: l in MessageLines(c.original, c.nts, c.code) ==> l.Report?;
    }
  }

  /** How many reports of a level there are. */
  function CountLevel(lines: seq<Line>, level: Level): nat {
    if lines == [] then 0
    else CountLevel(lines[..|lines| - 1], level) + (if lines[|lines| - 1].Report? && lines[|lines| - 1].level == level then 1 else 0)
  }

  /** Counts add up over concatenation, and no report has more than one level. */
  lemma {:induction false} CountLevelConcat(a: seq<Line>, b: seq<Line>, level: Level)
    ensures CountLevel(a + b, level) == CountLevel(a, level) + CountLevel(b, level)
    decreases |b|
  {
    if b == [] {
      assert a + b == a;
    } else {
      CountLevelConcat(a, b[..|b| - 1], level);
      assert (a + b)[..|a + b| - 1] == a + b[..|b| - 1];
    }
  }

  /** Warnings and errors together are the reports: the header counts as neither. */
  lemma {:induction false} CountLevelsSplit(lines: seq<Line>)
    ensures CountLevel(lines, Warning) + CountLevel(lines, Error) == |lines| - CountHeaders(lines)
  {
    if lines != [] {
      CountLevelsSplit(lines[..|lines| - 1]);
    }
  }

  function CountHeaders(lines: seq<Line>): nat {
    if lines == [] then 0 else CountHeaders(lines[..|lines| - 1]) + (if lines[|lines| - 1].Header? then 1 else 0)
  }

  /** `Printer`: one per file, remembering whether the header was printed. */
  class Printer {
    const fileName: string
    var firstMessage: bool
    var output: seq<Line>

    /** The header has been printed exactly when the first message has gone, and only as the first line. */
    predicate Valid()
      reads this
    {
      (firstMessage <==> output == []) &&
      (output != [] ==> output[0] == Header(fileName)) &&
      (forall i :: 0 < i < |output| ==> output[i].Report?)
    }

    constructor(fileName: string)
      ensures Valid() && this.fileName == fileName && firstMessage && output == []
    {
      this.fileName := fileName;
      firstMessage := true;
      output := [];
    }

    /** `PrintMessage`: the header on the first call, then the report if any. */
    method PrintMessage(original: Option<string>, nts: string, code: string)
      requires Valid()
      modifies this
      ensures Valid() && !firstMessage
      ensures output == old(output) + (if old(firstMessage) then [Header(fileName)] else []) + MessageLines(original, nts, code)
    {
      if firstMessage {
        output := output + [Header(fileName)];
        firstMessage := false;
      }
      output := output + MessageLines(original, nts, code);
    }

    /**
     * The loop body of `PrintInconsistency` for one display value; returns
     * the exception it throws, if any. `calls` are the calls made so far
     * since the printer printed `start`.
     */
    method PrintOne(dv: DisplayValue, ghost start: seq<Line>, ghost first: bool, ghost calls: seq<Step>) returns (crash: Option<Crash>)
      requires Valid() && output == start + Printed(fileName, first, calls) && firstMessage == (first && calls == [])
      modifies this
      ensures Valid()
      ensures crash == (if StepFor(dv).Throw? then Some(StepFor(dv).crash) else None)
      ensures output == start + Printed(fileName, first, Next(calls, StepFor(dv)))
      ensures firstMessage == (first && Next(calls, StepFor(dv)) == [])
    {
      var step := StepFor(dv);
      match step {
        case Skip =>
          crash := None;
        case Call(o, n, c) =>
          PrintedSnoc(fileName, first, calls, step);
          PrintMessage(o, n, c);
          crash := None;
        case Throw(e) =>
          crash := Some(e);
      }
    }

    /**
     * `PrintInconsistency`: each display value in order, until one makes
     * the body throw; returns the exception, if any.
     */
    method PrintInconsistency(displayValues: seq<DisplayValue>) returns (crash: Option<Crash>)
      requires Valid()
      modifies this
      ensures Valid()
      ensures crash == Calls(displayValues).1
      ensures output == old(output) + Printed(fileName, old(firstMessage), Calls(displayValues).0)
    {
      ghost var start := output;
      ghost var first := firstMessage;
      ghost var calls: seq<Step> := [];
      assert output == start + Printed(fileName, first, calls);
      crash := None;
      for i := 0 to |displayValues|
        invariant Valid()
        invariant crash == None && Calls(displayValues[..i]) == (calls, None)
        invariant output == start + Printed(fileName, first, calls)
        invariant firstMessage == (first && calls == [])
      {
        CallsSnoc(displayValues, i);
        crash := PrintOne(displayValues[i], start, first, calls);
        if crash.Some? {
          CallsStop(displayValues, i + 1);
          return;
        }
        calls := Next(calls, StepFor(displayValues[i]));
      }
      assert displayValues[..|displayValues|] == displayValues;
    }
  }

  /** The calls after one more step: a `Call` is recorded, anything else is not. */
  function Next(calls: seq<Step>, step: Step): seq<Step> {
    if step.Call? then calls + [step] else calls
  }

  /** One more display value: the loop body's effect on the recorded calls. */
  lemma CallsSnoc(dvs: seq<DisplayValue>, i: nat)
    requires i < |dvs| && Calls(dvs[..i]).1 == None
    ensures Calls(dvs[..i + 1]) ==
      if StepFor(dvs[i]).Throw? then (Calls(dvs[..i]).0, Some(StepFor(dvs[i]).crash))
      else (Next(Calls(dvs[..i]).0, StepFor(dvs[i])), None)
  {
    assert dvs[..i + 1][..i] == dvs[..i];
  }

  /** One more call prints the header if it is the first on a fresh printer, then its report. */
  lemma PrintedSnoc(fileName: string, first: bool, calls: seq<Step>, c: Step)
    requires c.Call?
    ensures Printed(fileName, first, calls + [c]) ==
      Printed(fileName, first, calls) + (if calls == [] && first then [Header(fileName)] else []) + MessageLines(c.original, c.nts, c.code)
  {
    assert (calls + [c])[..|calls|] == calls;
  }

  /** Once the loop has thrown, later display values change nothing. */
  lemma {:induction false} CallsStop(dvs: seq<DisplayValue>, n: nat)
    requires n <= |dvs| && Calls(dvs[..n]).1.Some?
    ensures Calls(dvs) == Calls(dvs[..n])
    decreases |dvs| - n
  {
    if n < |dvs| {
      assert dvs[..n + 1][..n] == dvs[..n];
      CallsStop(dvs, n + 1);
    } else {
      assert dvs[..n] == dvs;
    }
  }
}
