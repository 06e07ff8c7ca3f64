/**
 * CheckDisplayValues/CheckDisplayValues/FileChecker.cs: the text clean-up
 * before parsing, the walk that collects the codes of a resource, and the
 * updates that add the translations a value set or concept map supplies.
 */
module FileChecking {
  import opened Wrappers
  import opened Strings
  import opened DisplayValues
  import opened Printing

  // ------------------------------------------------------ placeholders

  const DATE_MARK := "\"${DATE"
  const DATE_TEXT := "\"2022-01-01"
  const ENCODED_MARK := "\"${"
  const ENCODED_TEXT := "\"Encoded"

  /** The exceptions the scanning loop can throw: `Substring(-1, …)`, or reading past the end. */
  datatype Failure = ArgumentOutOfRange | IndexOutOfRange

  /** A marker the rounds work with: a quote, a "$", and a replacement without "$". */
  predicate Placeholder(marker: string, rep: string) {
    |marker| >= 2 && marker[0] == '"' && marker[1] == '$' && '$' !in rep
  }

  /** A quote at index `k`. */
  lemma QuoteAt(s: string, k: int)
    requires 0 <= k < |s|
    ensures OccursAt(s, "\"", k) <==> s[k] == '"'
  {
    if s[k] == '"' {
      assert s[k..k + 1] == "\"";
    }
  }

  /**
   * The rounds of `ReplaceTDate`/`ReplaceEncodings` once a marker is in the
   * text: from the first marker up to the next quote is the span, every
   * occurrence of the span is replaced, and the next round starts while a
   * marker remains. A missing closing quote throws.
   */
  function Rounds(s: string, marker: string, rep: string): (r: Result<string, Failure>)
    requires Placeholder(marker, rep) && Contains(s, marker)
    ensures r.Ok? ==> !Contains(r.value, marker)
    ensures r.Ok? ==> CountChar(r.value, '$') < CountChar(s, '$')
    ensures r.Err? ==> r.error == IndexOutOfRange
    decreases CountChar(s, '$')
  {
    var first := IndexOf(s, marker);
    var close := IndexFrom(s, "\"", first + 1);
    if close == -1 then Err(IndexOutOfRange)
    else
      assert s[first + 1] == marker[1] by {
        assert s[first..first + |marker|][1] == marker[1];
      }
      assert close > first + 1 by {
        QuoteAt(s, close);
      }
      var span := s[first..close];
      assert span[1] == '$';
      assert OccursAt(s, span, first);
      ReplaceAllCountCharStrict(s, span, rep, '$', first);
      var t := ReplaceAll(s, span, rep);
      if Contains(t, marker) then Rounds(t, marker, rep) else Ok(t)
  }

  /** One round once the closing quote is found: the text loses a "$", and the rounds go on from the new text. */
  lemma RoundStep(s: string, marker: string, rep: string, close: int)
    requires Placeholder(marker, rep) && Contains(s, marker)
    requires close == IndexFrom(s, "\"", IndexOf(s, marker) + 1) && close != -1
    ensures IndexOf(s, marker) + 1 < close
    ensures var t := ReplaceAll(s, s[IndexOf(s, marker)..close], rep);
      CountChar(t, '$') < CountChar(s, '$') &&
      Rounds(s, marker, rep) == if Contains(t, marker) then Rounds(t, marker, rep) else Ok(t)
  {
    var first := IndexOf(s, marker);
    assert s[first + 1] == marker[1] by {
      assert s[first..first + |marker|][1] == marker[1];
    }
    QuoteAt(s, close);
    var span := s[first..close];
    assert span[1] == '$';
    ReplaceAllCountCharStrict(s, span, rep, '$', first);
  }

  /**
   * `ReplaceTDate`: the rounds for `"${DATE`. Without a quoted marker the
   * scan starts at index 0: a quote anywhere makes `Substring(-1, …)`
   * throw, and no quote at all makes it read past the end.
   */
  function TDateReplaced(s: string): (r: Result<string, Failure>)
    ensures r.Ok? ==> !Contains(r.value, DATE_MARK)
  {
    if Contains(s, DATE_MARK) then Rounds(s, DATE_MARK, DATE_TEXT)
    else if Contains(s, "\"") then Err(ArgumentOutOfRange)
    else Err(IndexOutOfRange)
  }

  /** `ReplaceEncodings`: the rounds for `"${`, and the text unchanged when it has none. */
  function EncodingsReplaced(s: string): (r: Result<string, Failure>)
    ensures r.Ok? ==> !Contains(r.value, ENCODED_MARK)
    ensures !Contains(s, ENCODED_MARK) ==> r == Ok(s)
    ensures r.Err? ==> r.error == IndexOutOfRange
  {
    if Contains(s, ENCODED_MARK) then Rounds(s, ENCODED_MARK, ENCODED_TEXT) else Ok(s)
  }

  /** The first index at or after `from` holding a quote, found by the scan. */
  lemma ScanFound(s: string, from: int, j: int)
    requires 0 <= from <= j < |s| && s[j] == '"'
    requires forall k :: from <= k < j ==> s[k] != '"'
    ensures IndexFrom(s, "\"", from) == j
  {
    QuoteAt(s, j);
    var r := IndexFrom(s, "\"", from);
    if r != -1 && r < j {
      QuoteAt(s, r);
    }
  }

  /** No quote at or after `from`. */
  lemma ScanNotFound(s: string, from: int)
    requires 0 <= from <= |s|
    requires forall k :: from <= k < |s| ==> s[k] != '"'
    ensures IndexFrom(s, "\"", from) == -1
  {
    var r := IndexFrom(s, "\"", from);
    if r != -1 {
      QuoteAt(s, r);
    }
  }

  /** The `while (true)` scan and the recursion of `ReplaceTDate`. */
  method ReplaceTDate(xmlString: string) returns (r: Result<string, Failure>)
    ensures r == TDateReplaced(xmlString)
    decreases CountChar(xmlString, '$')
  {
    var firstIndex := IndexOf(xmlString, DATE_MARK);
    var lastIndex := firstIndex + 1;
    while true
      invariant 0 <= firstIndex + 1 <= lastIndex
      invariant forall k :: firstIndex + 1 <= k < lastIndex && k < |xmlString| ==> xmlString[k] != '"'
      decreases |xmlString| - lastIndex
    {
      if lastIndex >= |xmlString| {
        if firstIndex == -1 {
          ScanNotFound(xmlString, 0);
        } else {
          ScanNotFound(xmlString, firstIndex + 1);
        }
        return Err(IndexOutOfRange);
      }
      if xmlString[lastIndex] == '"' {
        if firstIndex < 0 {
          QuoteAt(xmlString, lastIndex);
          return Err(ArgumentOutOfRange);
        }
        ScanFound(xmlString, firstIndex + 1, lastIndex);
        RoundStep(xmlString, DATE_MARK, DATE_TEXT, lastIndex);
        var substring := xmlString[firstIndex..lastIndex];
        var replaced := ReplaceAll(xmlString, substring, DATE_TEXT);
        if Contains(replaced, DATE_MARK) {
          r := ReplaceTDate(replaced);
        } else {
          r := Ok(replaced);
        }
        return;
      }
      lastIndex := lastIndex + 1;
    }
  }

  /** The same scan and recursion in `ReplaceEncodings`, which first returns the text unchanged when it has no marker. */
  method ReplaceEncodings(xmlString: string) returns (r: Result<string, Failure>)
    ensures r == EncodingsReplaced(xmlString)
    decreases CountChar(xmlString, '$')
  {
    var firstIndex := IndexOf(xmlString, ENCODED_MARK);
    var lastIndex := firstIndex + 1;
    if firstIndex == -1 {
      return Ok(xmlString);
    }
    while true
      invariant 0 <= firstIndex + 1 <= lastIndex
      invariant forall k :: firstIndex + 1 <= k < lastIndex && k < |xmlString| ==> xmlString[k] != '"'
      decreases |xmlString| - lastIndex
    {
      if lastIndex >= |xmlString| {
        ScanNotFound(xmlString, firstIndex + 1);
        return Err(IndexOutOfRange);
      }
      if xmlString[lastIndex] == '"' {
        ScanFound(xmlString, firstIndex + 1, lastIndex);
        RoundStep(xmlString, ENCODED_MARK, ENCODED_TEXT, lastIndex);
        var substring := xmlString[firstIndex..lastIndex];
        var replaced := ReplaceAll(xmlString, substring, ENCODED_TEXT);
        if Contains(replaced, ENCODED_MARK) {
          r := ReplaceEncodings(replaced);
        } else {
          r := Ok(replaced);
        }
        return;
      }
      lastIndex := lastIndex + 1;
    }
  }

  /** A text holding `"${` holds `${`. */
  lemma QuotedHoldsBare(s: string)
    requires Contains(s, ENCODED_MARK)
    ensures Contains(s, "${")
  {
    var i := IndexOf(s, ENCODED_MARK);
    assert s[i + 1..i + 3] == s[i..i + 3][1..];
    ContainsAt(s, "${", i + 1);
  }

  /** A text holding `"${DATE` holds `"${`. */
  lemma DateHoldsEncoded(s: string)
    requires Contains(s, DATE_MARK)
    ensures Contains(s, ENCODED_MARK)
  {
    var i := IndexOf(s, DATE_MARK);
    assert s[i..i + 3] == s[i..i + 7][..3];
    ContainsAt(s, ENCODED_MARK, i);
  }

  /** Both date guards start with a `${`, so a text without one passes neither. */
  lemma MarksHoldPlaceholder(s: string)
    ensures Contains(s, "${DATE") ==> Contains(s, "${")
    ensures Contains(s, DATE_MARK) ==> Contains(s, "${")
  {
    if Contains(s, "${DATE") {
      var i := IndexOf(s, "${DATE");
      assert s[i..i + 2] == s[i..i + 6][..2];
      ContainsAt(s, "${", i);
    }
    if Contains(s, DATE_MARK) {
      var i := IndexOf(s, DATE_MARK);
      assert s[i..i + 7] == DATE_MARK;
      assert s[i + 1] == s[i..i + 7][1] && s[i + 2] == s[i..i + 7][2];
      assert s[i + 1..i + 3] == "${";
      ContainsAt(s, "${", i + 1);
    }
  }

  /** The clean-up in `CheckFile` as written: the date rounds are guarded by `${DATE`, without the quote. */
  function PreparedAsWritten(s: string): (r: Result<string, Failure>)
    ensures !Contains(s, "${") ==> r == Ok(s)
  {
    MarksHoldPlaceholder(s);
    var dated := if Contains(s, "${DATE") then TDateReplaced(s) else Ok(s);
    if dated.Err? then dated
    else if Contains(dated.value, "${") then EncodingsReplaced(dated.value)
    else dated
  }

  /** An unquoted date placeholder passes the guard and makes the date rounds throw. */
  lemma UnquotedDateThrows()
    ensures PreparedAsWritten("${DATE") == Err(IndexOutOfRange)
    ensures PreparedAsWritten("'${DATE'\"") == Err(ArgumentOutOfRange)
  {
    BareDateThrows();
    SingleQuotedDateThrows();
  }

  lemma BareDateThrows()
    ensures PreparedAsWritten("${DATE") == Err(IndexOutOfRange)
  {
    var s := "${DATE";
    assert OccursAt(s, "${DATE", 0);
    ScanNotFound(s, 0);
  }

  lemma SingleQuotedDateThrows()
    ensures PreparedAsWritten("'${DATE'\"") == Err(ArgumentOutOfRange)
  {
    var t := "'${DATE'\"";
    assert OccursAt(t, "${DATE", 1);
    assert !Contains(t, DATE_MARK) by {
      forall i | 0 <= i <= 2
        ensures !OccursAt(t, DATE_MARK, i)
      {
        assert t[i..i + 7][0] == t[i] != '"';
      }
    }
    QuoteAt(t, 8);
  }

  /** The clean-up with the guard the date rounds need: a quoted `"${DATE`. */
  function Prepared(s: string): (r: Result<string, Failure>)
    ensures !Contains(s, "${") ==> r == Ok(s)
  {
    MarksHoldPlaceholder(s);
    var dated := if Contains(s, DATE_MARK) then TDateReplaced(s) else Ok(s);
    if dated.Err? then dated
    else if Contains(dated.value, "${") then EncodingsReplaced(dated.value)
    else dated
  }

  /**
   * With the quoted guard the clean-up fails only on a placeholder without
   * a closing quote, and its result holds no `"${` (and so no
   * `"${DATE`) placeholder.
   */
  lemma PreparedClean(s: string)
    ensures Prepared(s).Err? ==> Prepared(s).error == IndexOutOfRange
    ensures Prepared(s).Ok? ==> !Contains(Prepared(s).value, ENCODED_MARK) && !Contains(Prepared(s).value, DATE_MARK)
  {
    var dated := if Contains(s, DATE_MARK) then TDateReplaced(s) else Ok(s);
    if dated.Ok? {
      if !Contains(dated.value, "${") {
        if Contains(dated.value, ENCODED_MARK) {
          QuotedHoldsBare(dated.value);
        }
      }
      var r := Prepared(s);
      if r.Ok? && Contains(r.value, DATE_MARK) {
        DateHoldsEncoded(r.value);
      }
    }
  }

  /** The clean-up step of `CheckFile`, with the quoted guard. */
  method Prepare(xmlString: string) returns (r: Result<string, Failure>)
    ensures r == Prepared(xmlString)
  {
    r := Ok(xmlString);
    if Contains(xmlString, DATE_MARK) {
      r := ReplaceTDate(xmlString);
      if r.Err? {
        return;
      }
    }
    if Contains(r.value, "${") {
      r := ReplaceEncodings(r.value);
    }
  }

  // ---------------------------------------------------------- code walk

  /**
   * An element of the parsed resource: its name, its children, and the
   * display value `CompareValues` makes of it, if any.
   */
  datatype Node = Node(name: string, children: seq<Node>, found: Option<DisplayValue>)

  /** The element names whose codings are compared. */
  predicate IsCoded(name: string) {
    name == "category" || name == "coding"
  }

  /** What `CompareValues` adds for one element. */
  function Found(n: Node): seq<DisplayValue> {
    if n.found.Some? then [n.found.value] else []
  }

  /** The display values `CheckElement` appends for an element, in document order. */
  function Collected(n: Node): seq<DisplayValue>
    decreases n
  {
    if IsCoded(n.name) then Found(n) else CollectedAll(n.children)
  }

  function CollectedAll(ns: seq<Node>): seq<DisplayValue>
    decreases ns
  {
    if ns == [] then [] else CollectedAll(ns[..|ns| - 1]) + Collected(ns[|ns| - 1])
  }

  /**
   * The element reached from `n` by the child indices `path`: every
   * element on the way down except the last is not a compared one.
   */
  predicate ComparedAt(n: Node, path: seq<nat>, d: DisplayValue)
    decreases |path|
  {
    if path == [] then IsCoded(n.name) && n.found == Some(d)
    else !IsCoded(n.name) && path[0] < |n.children| && ComparedAt(n.children[path[0]], path[1..], d)
  }

  /** Every collected value has a path to its element. */
  lemma {:induction false} CollectedHasPath(n: Node, d: DisplayValue)
    requires d in Collected(n)
    ensures exists path :: ComparedAt(n, path, d)
    decreases n
  {
    if IsCoded(n.name) {
      assert ComparedAt(n, [], d);
    } else {
      var i := CollectedAllHasPath(n.children, d);
      var path :| ComparedAt(n.children[i], path, d);
      var full := [i] + path;
      assert full[0] == i && full[1..] == path;
      assert ComparedAt(n, full, d);
    }
  }

  /** A value collected from a list comes from one of its elements. */
  lemma {:induction false} CollectedAllHasPath(ns: seq<Node>, d: DisplayValue) returns (i: nat)
    requires d in CollectedAll(ns)
    ensures i < |ns| && exists path :: ComparedAt(ns[i], path, d)
    decreases ns
  {
    var init := ns[..|ns| - 1];
    var last := ns[|ns| - 1];
    if d in CollectedAll(init) {
      i := CollectedAllHasPath(init, d);
      assert ns[i] == init[i];
    } else {
      CollectedHasPath(last, d);
      i := |ns| - 1;
    }
  }

  /** A value in a list element is collected from the list. */
  lemma {:induction false} InCollectedAll(ns: seq<Node>, k: nat, d: DisplayValue)
    requires k < |ns| && d in Collected(ns[k])
    ensures d in CollectedAll(ns)
    decreases ns
  {
    var init := ns[..|ns| - 1];
    if k < |init| {
      assert init[k] == ns[k];
      InCollectedAll(init, k, d);
    }
  }

  /** The element a path reaches gives its value. */
  lemma {:induction false} CollectedFromPath(n: Node, path: seq<nat>, d: DisplayValue)
    requires ComparedAt(n, path, d)
    ensures d in Collected(n)
    decreases |path|
  {
    if path != [] {
      CollectedFromPath(n.children[path[0]], path[1..], d);
      InCollectedAll(n.children, path[0], d);
    }
  }

  /**
   * A value is collected exactly when it belongs to a "category" or
   * "coding" element none of whose ancestors is one: compared elements
   * are not searched below.
   */
  lemma CollectedMeaning(n: Node, d: DisplayValue)
    ensures d in Collected(n) <==> exists path :: ComparedAt(n, path, d)
  {
    if d in Collected(n) {
      CollectedHasPath(n, d);
    }
    forall path | ComparedAt(n, path, d)
      ensures d in Collected(n)
    {
      CollectedFromPath(n, path, d);
    }
  }

  // -------------------------------------------------- translation updates

  /** A code of a value set or concept map, with its display. */
  datatype Concept = Concept(code: string, display: Option<string>)

  /** A value-set include: its system and its concepts. */
  datatype Include = Include(system: string, concepts: seq<Concept>)

  const SNOMED := "http://snomed.info/sct"
  const LOINC := "http://loinc.org"
  const NOT_FOUND_IN_PACKAGE := "NotFoundInPackage"

  /** The translation a matching concept adds. */
  function ZiBTranslation(display: Option<string>): Translation {
    Translation("nl", Some("ZiB"), display)
  }

  /** `First(x => x.code == code)`: the first display value with that code. */
  function FirstWithCode(dvs: seq<DisplayValue>, code: string): (r: Option<nat>)
    ensures r.Some? ==> r.value < |dvs| && dvs[r.value].code == code
    ensures r.Some? ==> forall k :: 0 <= k < r.value ==> dvs[k].code != code
    ensures r.None? ==> forall k :: 0 <= k < |dvs| ==> dvs[k].code != code
  {
    if dvs == [] then None
    else if dvs[0].code == code then Some(0)
    else
      var r := FirstWithCode(dvs[1..], code);
      if r.Some? then Some(r.value + 1) else None
  }

  /**
   * One concept: when some display value has its code, the first one gets
   * the ZiB translation appended; a `null` list there throws (`None`).
   */
  function AddConcept(dvs: seq<DisplayValue>, c: Concept): Option<seq<DisplayValue>> {
    match FirstWithCode(dvs, c.code)
    case None => Some(dvs)
    case Some(i) =>
      if dvs[i].displayCorrect.None? then None
      else Some(dvs[i := dvs[i].(displayCorrect := Some(dvs[i].displayCorrect.value + [ZiBTranslation(c.display)]))])
  }

  /** All concepts in order; the second part tells whether a `null` list stopped it. */
  function AddConcepts(dvs: seq<DisplayValue>, concepts: seq<Concept>): (seq<DisplayValue>, bool) {
    if concepts == [] then (dvs, false)
    else
      var (before, stopped) := AddConcepts(dvs, concepts[..|concepts| - 1]);
      if stopped then (before, true)
      else match AddConcept(before, concepts[|concepts| - 1])
        case None => (before, true)
        case Some(after) => (after, false)
  }

  /** The same system, code and current display at every index. */
  predicate SameCodes(a: seq<DisplayValue>, b: seq<DisplayValue>) {
    |a| == |b| && forall i :: 0 <= i < |a| ==> a[i].system == b[i].system && a[i].code == b[i].code && a[i].displayCurrent == b[i].displayCurrent
  }

  /** The translations the concepts add to display value `i`: one per concept whose code `i` is the first to carry. */
  function Additions(dvs: seq<DisplayValue>, concepts: seq<Concept>, i: nat): seq<Translation> {
    if concepts == [] then []
    else
      var c := concepts[|concepts| - 1];
      Additions(dvs, concepts[..|concepts| - 1], i) + (if FirstWithCode(dvs, c.code) == Some(i) then [ZiBTranslation(c.display)] else [])
  }

  /** Two lists with the same codes agree on which value is first for a code. */
  lemma {:induction false} FirstWithCodeSame(a: seq<DisplayValue>, b: seq<DisplayValue>, code: string)
    requires SameCodes(a, b)
    ensures FirstWithCode(a, code) == FirstWithCode(b, code)
  {
    if a != [] {
      assert SameCodes(a[1..], b[1..]) by {
        assert forall i :: 0 <= i < |a| - 1 ==> a[1..][i] == a[i + 1] && b[1..][i] == b[i + 1];
      }
      FirstWithCodeSame(a[1..], b[1..], code);
    }
  }

  /**
   * Without a `null` list on the way, the concepts change nothing but the
   * translation lists, and each list gains exactly the ZiB translations of
   * the concepts whose code it is the first to carry, in concept order.
   */
  lemma {:induction false} AddConceptsMeaning(dvs: seq<DisplayValue>, concepts: seq<Concept>)
    requires !AddConcepts(dvs, concepts).1
    ensures SameCodes(dvs, AddConcepts(dvs, concepts).0)
    ensures forall i :: 0 <= i < |dvs| && dvs[i].displayCorrect.Some? ==>
      AddConcepts(dvs, concepts).0[i].displayCorrect == Some(dvs[i].displayCorrect.value + Additions(dvs, concepts, i))
    ensures forall i :: 0 <= i < |dvs| && dvs[i].displayCorrect.None? ==> AddConcepts(dvs, concepts).0[i] == dvs[i]
  {
    if concepts != [] {
      var init := concepts[..|concepts| - 1];
      AddConceptsMeaning(dvs, init);
      AddOneMeaning(dvs, concepts, AddConcepts(dvs, init).0, AddConcepts(dvs, concepts).0);
    } else {
      forall i | 0 <= i < |dvs| && dvs[i].displayCorrect.Some?
        ensures dvs[i].displayCorrect.value + Additions(dvs, concepts, i) == dvs[i].displayCorrect.value
      {
        assert Additions(dvs, concepts, i) == [];
      }
    }
  }

  /** The last concept keeps the meaning of the updates: the list it extends is the first with its code. */
  lemma AddOneMeaning(dvs: seq<DisplayValue>, concepts: seq<Concept>, before: seq<DisplayValue>, after: seq<DisplayValue>)
    requires concepts != []
    requires SameCodes(dvs, before)
    requires forall i :: 0 <= i < |dvs| && dvs[i].displayCorrect.Some? ==>
      before[i].displayCorrect == Some(dvs[i].displayCorrect.value + Additions(dvs, concepts[..|concepts| - 1], i))
    requires forall i :: 0 <= i < |dvs| && dvs[i].displayCorrect.None? ==> before[i] == dvs[i]
    requires AddConcept(before, concepts[|concepts| - 1]) == Some(after)
    ensures SameCodes(dvs, after)
    ensures forall i :: 0 <= i < |dvs| && dvs[i].displayCorrect.Some? ==>
      after[i].displayCorrect == Some(dvs[i].displayCorrect.value + Additions(dvs, concepts, i))
    ensures forall i :: 0 <= i < |dvs| && dvs[i].displayCorrect.None? ==> after[i] == dvs[i]
  {
    var c := concepts[|concepts| - 1];
    FirstWithCodeSame(dvs, before, c.code);
    AddConceptShape(before, c, after);
    forall i | 0 <= i < |dvs| && dvs[i].displayCorrect.Some?
      ensures after[i].displayCorrect == Some(dvs[i].displayCorrect.value + Additions(dvs, concepts, i))
    {
      AddOneAt(dvs, concepts, before[i], after[i], i);
    }
  }

  /** One concept changes at most one display value: the first with its code gains its translation. */
  lemma AddConceptShape(before: seq<DisplayValue>, c: Concept, after: seq<DisplayValue>)
    requires AddConcept(before, c) == Some(after)
    ensures |after| == |before|
    ensures forall i :: 0 <= i < |before| ==>
      after[i] == if FirstWithCode(before, c.code) == Some(i)
        then before[i].(displayCorrect := Some(before[i].displayCorrect.value + [ZiBTranslation(c.display)]))
        else before[i]
  {
  }

  /** Display value `i` after the last concept, from what the concepts before it gave it. */
  lemma AddOneAt(dvs: seq<DisplayValue>, concepts: seq<Concept>, before: DisplayValue, after: DisplayValue, i: nat)
    requires concepts != [] && i < |dvs| && dvs[i].displayCorrect.Some?
    requires before.displayCorrect == Some(dvs[i].displayCorrect.value + Additions(dvs, concepts[..|concepts| - 1], i))
    requires var c := concepts[|concepts| - 1];
      after == if FirstWithCode(dvs, c.code) == Some(i)
        then before.(displayCorrect := Some(before.displayCorrect.value + [ZiBTranslation(c.display)]))
        else before
    ensures after.displayCorrect == Some(dvs[i].displayCorrect.value + Additions(dvs, concepts, i))
  {
    var c := concepts[|concepts| - 1];
    AdditionsLast(dvs, concepts, i);
    var ts, added := dvs[i].displayCorrect.value, Additions(dvs, concepts[..|concepts| - 1], i);
    if FirstWithCode(dvs, c.code) == Some(i) {
      assert (ts + added) + [ZiBTranslation(c.display)] == ts + (added + [ZiBTranslation(c.display)]);
    } else {
      assert added + [] == added;
    }
  }

  /** The translations of the last concept come after those of the concepts before it. */
  lemma AdditionsLast(dvs: seq<DisplayValue>, concepts: seq<Concept>, i: nat)
    requires concepts != []
    ensures var c := concepts[|concepts| - 1];
      Additions(dvs, concepts, i) ==
        Additions(dvs, concepts[..|concepts| - 1], i) + (if FirstWithCode(dvs, c.code) == Some(i) then [ZiBTranslation(c.display)] else [])
  {
  }

  /** Display values all with a translation list never make the updates throw. */
  lemma {:induction false} AddConceptsNoStop(dvs: seq<DisplayValue>, concepts: seq<Concept>)
    requires forall i :: 0 <= i < |dvs| ==> dvs[i].displayCorrect.Some?
    ensures !AddConcepts(dvs, concepts).1
  {
    if concepts != [] {
      var init := concepts[..|concepts| - 1];
      AddConceptsNoStop(dvs, init);
      AddConceptsMeaning(dvs, init);
    }
  }

  /** The include `ReadValueSet` reads: the first SNOMED one if any, else the first LOINC one. */
  function ChosenInclude(includes: seq<Include>): (r: Option<Include>) {
    var snomed := FirstOfSystem(includes, SNOMED);
    if snomed.Some? then snomed else FirstOfSystem(includes, LOINC)
  }

  /** `FirstOrDefault(x => x.System == system)`. */
  function FirstOfSystem(includes: seq<Include>, system: string): (r: Option<Include>)
    ensures r.Some? ==> r.value in includes && r.value.system == system
    ensures r.None? ==> forall k :: 0 <= k < |includes| ==> includes[k].system != system
    ensures r.Some? ==> exists k :: 0 <= k < |includes| && includes[k] == r.value && forall j :: 0 <= j < k ==> includes[j].system != system
  {
    if includes == [] then None
    else if includes[0].system == system then Some(includes[0])
    else
      var r := FirstOfSystem(includes[1..], system);
      if r.Some? then
        var k :| 0 <= k < |includes[1..]| && includes[1..][k] == r.value && forall j :: 0 <= j < k ==> includes[1..][j].system != system;
        assert includes[k + 1] == r.value;
        assert forall j :: 1 <= j < k + 1 ==> includes[j] == includes[1..][j - 1];
        r
      else
        assert forall k :: 1 <= k < |includes| ==> includes[k] == includes[1..][k - 1];
        r
  }

  /** SNOMED wins over LOINC, and only one include is ever read. */
  lemma ChosenIncludeMeaning(includes: seq<Include>)
    ensures (exists k :: 0 <= k < |includes| && includes[k].system == SNOMED) ==>
      ChosenInclude(includes).Some? && ChosenInclude(includes).value.system == SNOMED
    ensures (forall k :: 0 <= k < |includes| ==> includes[k].system != SNOMED) ==>
      ChosenInclude(includes) == FirstOfSystem(includes, LOINC)
    ensures ChosenInclude(includes).None? <==>
      forall k :: 0 <= k < |includes| ==> includes[k].system != SNOMED && includes[k].system != LOINC
  {
  }

  /** The concept map reference renamed by the workaround in `ReadConceptMapAsync`. */
  const RENAMED_FROM := "http://nictiz.nl/fhir/ConceptMap/InterpretatieVlaggenCodelijst-To-Observation-Interpretation"
  const RENAMED_TO := "http://nictiz.nl/fhir/ConceptMap/InterpretatieVlaggenCodelijst-to-observation-interpretation"

  function ConceptMapReference(reference: string): (r: string)
    ensures reference == RENAMED_FROM ==> r == RENAMED_TO
    ensures reference != RENAMED_FROM ==> r == reference
  {
    if reference == RENAMED_FROM then RENAMED_TO else reference
  }

  /** `FileChecker`: the display values of the file being checked, and the running counts. */
  class FileChecker {
    var displayValues: seq<DisplayValue>
    var warningCount: int
    var errorCount: int

    constructor()
      ensures displayValues == [] && warningCount == 0 && errorCount == 0
    {
      displayValues := [];
      warningCount := 0;
      errorCount := 0;
    }

    /** `CompareValues`: the element's display value, when it has one, is added. */
    method CompareValues(n: Node)
      modifies this
      ensures displayValues == old(displayValues) + Found(n)
      ensures warningCount == old(warningCount) && errorCount == old(errorCount)
    {
      if n.found.Some? {
        displayValues := displayValues + [n.found.value];
      }
    }

    /** `CheckElement`: compare a "category" or "coding" element, otherwise walk its children in order. */
    method CheckElement(element: Node)
      modifies this
      ensures displayValues == old(displayValues) + Collected(element)
      ensures warningCount == old(warningCount) && errorCount == old(errorCount)
      decreases element
    {
      if |element.children| > 0 {
        if IsCoded(element.name) {
          CompareValues(element);
        } else {
          for i := 0 to |element.children|
            invariant displayValues == old(displayValues) + CollectedAll(element.children[..i])
            invariant warningCount == old(warningCount) && errorCount == old(errorCount)
          {
            assert element.children[..i + 1][..i] == element.children[..i];
            CheckElement(element.children[i]);
          }
          assert element.children[..|element.children|] == element.children;
        }
      } else {
        if IsCoded(element.name) {
          CompareValues(element);
        }
      }
    }

    /**
     * `CheckExternalCodes`: each concept whose code some display value has
     * adds a ZiB translation to the first such value; returns whether a
     * `null` list made it throw.
     */
    method CheckExternalCodes(concepts: seq<Concept>) returns (threw: bool)
      modifies this
      ensures (displayValues, threw) == AddConcepts(old(displayValues), concepts)
      ensures warningCount == old(warningCount) && errorCount == old(errorCount)
    {
      ghost var start := displayValues;
      for i := 0 to |concepts|
        invariant AddConcepts(start, concepts[..i]) == (displayValues, false)
        invariant warningCount == old(warningCount) && errorCount == old(errorCount)
      {
        assert concepts[..i + 1][..i] == concepts[..i];
        var c := concepts[i];
        var first := FirstWithCode(displayValues, c.code);
        if first.Some? {
          var dv := displayValues[first.value];
          if dv.displayCorrect.None? {
            AddConceptsStop(start, concepts, i + 1);
            return true;
          }
          displayValues := displayValues[first.value := dv.(displayCorrect := Some(dv.displayCorrect.value + [ZiBTranslation(c.display)]))];
        }
      }
      assert concepts[..|concepts|] == concepts;
      threw := false;
    }

    /** `ReadValueSet`: the concepts of the SNOMED include, or else of the LOINC one. */
    method ReadValueSet(includes: seq<Include>) returns (threw: bool)
      modifies this
      ensures var chosen := ChosenInclude(includes);
        (displayValues, threw) == if chosen.Some? then AddConcepts(old(displayValues), chosen.value.concepts) else (old(displayValues), false)
      ensures warningCount == old(warningCount) && errorCount == old(errorCount)
    {
      var snomedCodes := FirstOfSystem(includes, SNOMED);
      var loincCodes := FirstOfSystem(includes, LOINC);
      threw := false;
      if snomedCodes.Some? {
        threw := CheckExternalCodes(snomedCodes.value.concepts);
      } else if loincCodes.Some? {
        threw := CheckExternalCodes(loincCodes.value.concepts);
      }
    }

    /**
     * The list update of `ReadConceptMapAsync`: a concept map that is not
     * found adds a "NotFoundInPackage" entry under the (renamed) reference;
     * a found one adds its targets' translations as a value set does.
     */
    method ReadConceptMap(reference: string, targets: Option<seq<Concept>>) returns (threw: bool)
      modifies this
      ensures targets.None? ==> !threw
      ensures targets.None? ==> displayValues == old(displayValues) + [DisplayValue(NOT_FOUND_IN_PACKAGE, ConceptMapReference(reference), None, None)]
      ensures targets.Some? ==> (displayValues, threw) == AddConcepts(old(displayValues), targets.value)
      ensures warningCount == old(warningCount) && errorCount == old(errorCount)
    {
      var valueSetReference := reference;
      if valueSetReference == RENAMED_FROM {
        valueSetReference := RENAMED_TO;
      }
      if targets.None? {
        displayValues := displayValues + [DisplayValue(NOT_FOUND_IN_PACKAGE, valueSetReference, None, None)];
        threw := false;
      } else {
        threw := CheckExternalCodes(targets.value);
      }
    }

    /**
     * `SearchEntry`, with the package search left out: the resource's codes
     * are collected, and when there are any and it is not a Binary, a
     * printer for the file reports on every display value gathered so far
     * and its warnings and errors are added to the counts. The second
     * result is the exception the printer threw, if any.
     */
    method SearchEntry(resource: Node, typeName: string, fileName: string) returns (printed: seq<Line>, crash: Option<Crash>)
      modifies this
      ensures displayValues == old(displayValues) + Collected(resource)
      ensures |displayValues| == 0 || typeName == "Binary" ==> printed == [] && crash == None
      ensures |displayValues| > 0 && typeName != "Binary" ==>
        crash == Calls(displayValues).1 && printed == Printed(fileName, true, Calls(displayValues).0)
      ensures crash == None ==> warningCount == old(warningCount) + CountLevel(printed, Warning)
      ensures crash == None ==> errorCount == old(errorCount) + CountLevel(printed, Error)
      ensures crash != None ==> warningCount == old(warningCount) && errorCount == old(errorCount)
    {
      CheckElement(resource);
      printed := [];
      crash := None;
      if |displayValues| > 0 && typeName != "Binary" {
        var printer := new Printer(fileName);
        crash := printer.PrintInconsistency(displayValues);
        printed := printer.output;
        if crash.None? {
          AddCounts(printed);
        }
      }
    }

    /** The counts `SearchEntry` adds from a printer's reports. */
    method AddCounts(lines: seq<Line>)
      modifies this
      ensures warningCount == old(warningCount) + CountLevel(lines, Warning)
      ensures errorCount == old(errorCount) + CountLevel(lines, Error)
      ensures displayValues == old(displayValues)
    {
      warningCount := warningCount + CountLevel(lines, Warning);
      errorCount := errorCount + CountLevel(lines, Error);
    }
  }

  /** Once an update has thrown, later concepts change nothing. */
  lemma {:induction false} AddConceptsStop(dvs: seq<DisplayValue>, concepts: seq<Concept>, n: nat)
    requires n <= |concepts| && AddConcepts(dvs, concepts[..n]).1
    ensures AddConcepts(dvs, concepts) == AddConcepts(dvs, concepts[..n])
    decreases |concepts| - n
  {
    if n < |concepts| {
      assert concepts[..n + 1][..n] == concepts[..n];
      AddConceptsStop(dvs, concepts, n + 1);
    } else {
      assert concepts[..n] == concepts;
    }
  }
}
