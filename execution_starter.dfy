/**
 * The Touchstone execution starter (TouchstoneExecutionStarter/script.py):
 * a registry of named targets, where a name may stand for a list of names
 * declared before it, and the launcher that expands what it is given into
 * executions, depth first and left to right, reporting the names it does
 * not know.
 */
module ExecutionStarter {
  import opened Wrappers
  import opened Strings
  import opened Decimal
  import KnownTargets

  // ------------------------------------------------------------- targets

  /** An origins or destinations argument of `Target`: one system name or a list of them. */
  datatype Systems = One(name: string) | Many(names: seq<string>)

  /** A test execution to set up: folder, systems, variables and whether load scripts run too. */
  datatype Target = Target(relPath: string, origins: seq<string>, destinations: seq<string>,
                           params: Option<map<string, string>>, isLoadscriptFolder: bool)

  /** A single name becomes a one-element list; a list is kept. */
  function AsList(s: Systems): seq<string> {
    match s
    case One(n) => [n]
    case Many(ns) => ns
  }

  /** `Target.__init__`. */
  function NewTarget(relPath: string, origins: Systems, destinations: Systems,
                     params: Option<map<string, string>>, isLoadscriptFolder: bool): Target {
    Target(relPath, AsList(origins), AsList(destinations), params, isLoadscriptFolder)
  }

  /**
   * Naming one system or a list of just that system builds the same target,
   * and rebuilding a target from its own lists gives it back unchanged.
   */
  lemma NewTargetNormalises(relPath: string, origin: string, destination: string,
                            params: Option<map<string, string>>, isLoadscriptFolder: bool, t: Target)
    ensures NewTarget(relPath, One(origin), One(destination), params, isLoadscriptFolder) ==
            NewTarget(relPath, Many([origin]), Many([destination]), params, isLoadscriptFolder)
    ensures NewTarget(t.relPath, Many(t.origins), Many(t.destinations), t.params, t.isLoadscriptFolder) == t
  {
  }

  // ------------------------------------------------------------ registry

  /** A value of `TARGETS`, or an argument of `execute`: a name or number, a list, or a target. */
  datatype Item = Name(s: string) | Group(items: seq<Item>) | Single(t: Target)

  /** One `TARGETS[name] = value` declaration. */
  datatype Decl = Decl(name: string, value: Item)

  /** `TARGETS`, in declaration order. */
  type Registry = seq<Decl>

  /** The keys of the registry, in declaration order. */
  function Keys(reg: Registry): (ks: seq<string>)
    ensures |ks| == |reg| && forall k :: 0 <= k < |reg| ==> ks[k] == reg[k].name
  {
    if reg == [] then [] else Keys(reg[..|reg| - 1]) + [reg[|reg| - 1].name]
  }

  /** Where `key` is declared. */
  function Position(reg: Registry, key: string): (r: Option<nat>)
    ensures r.None? <==> key !in Keys(reg)
    ensures r.Some? ==> r.value < |reg| && reg[r.value].name == key
  {
    if reg == [] then None
    else if reg[|reg| - 1].name == key then Some(|reg| - 1)
    else
      var r := Position(reg[..|reg| - 1], key);
      assert Keys(reg) == Keys(reg[..|reg| - 1]) + [reg[|reg| - 1].name];
      r
  }

  /** Every key is declared once, as in a dictionary. */
  predicate DistinctKeys(reg: Registry) {
    forall j, k :: 0 <= j < k < |reg| ==> reg[j].name != reg[k].name
  }

  /** The key a string argument stands for, and the message an out-of-range number produces. */
  function Resolve(reg: Registry, s: string): (r: (string, seq<string>))
    ensures |r.1| <= 1 && (r.1 != [] ==> r.0 == s)
  {
    ResolveParsed(reg, s, ParseInt(s))
  }

  /** A string argument stands for itself or for a declared key. */
  lemma ResolvesToKey(reg: Registry, s: string)
    ensures Resolve(reg, s).0 == s || Resolve(reg, s).0 in Keys(reg)
  {
  }

  /** `Resolve` once the argument has been read as a number, or found not to be one. */
  function ResolveParsed(reg: Registry, s: string, parsed: Option<int>): (string, seq<string>) {
    match parsed
    case None => (s, [])
    case Some(index) =>
      match KnownTargets.PyIndex(Keys(reg), index - 1)
      case Some(key) => (key, [])
      case None => (s, ["Unknown target number '" + IntToString(index)])
  }

  /** Every name among `items` stands for a key declared before position `b`, or for no key at all. */
  predicate RefsBelow(reg: Registry, items: seq<Item>, b: nat)
    decreases items
  {
    items == [] || (RefsBelow(reg, items[..|items| - 1], b) && ItemRefsBelow(reg, items[|items| - 1], b))
  }

  /** The same for one item. */
  predicate ItemRefsBelow(reg: Registry, item: Item, b: nat)
    decreases item
  {
    match item
    case Single(_) => true
    case Group(sub) => RefsBelow(reg, sub, b)
    case Name(s) =>
      var key := Resolve(reg, s).0;
      Position(reg, key).None? || Position(reg, key).value < b
  }

  /** The value declared at position `j` names only keys declared before it. */
  predicate RefsEarlier(reg: Registry, j: nat)
    requires j < |reg|
  {
    ItemRefsBelow(reg, reg[j].value, j)
  }

  /** Keys are distinct, and each list names only keys declared before it. */
  predicate Registered(reg: Registry) {
    DistinctKeys(reg) && forall j :: 0 <= j < |reg| ==> RefsEarlier(reg, j)
  }

  // ----------------------------------------------------------- expanding

  /** What `execute` does, step by step: add a line to `results`, or execute a target. */
  datatype Action = Report(line: string) | Launch(t: Target)

  function Reports(lines: seq<string>): (r: seq<Action>)
    ensures |r| == |lines| && forall k :: 0 <= k < |lines| ==> r[k] == Report(lines[k])
  {
    if lines == [] then [] else Reports(lines[..|lines| - 1]) + [Report(lines[|lines| - 1])]
  }

  /**
   * What `execute(*items)` does, where the items name only keys declared
   * before position `b`. A name at or after `b`, which `RefsBelow` rules
   * out, expands to nothing here; `execute` would follow it like any other
   * key, and would recurse without end only on a name that leads back to
   * itself.
   */
  function Flatten(reg: Registry, items: seq<Item>, b: nat): (r: seq<Action>)
    decreases b, items
  {
    if items == [] then []
    else Flatten(reg, items[..|items| - 1], b) + FlattenItem(reg, items[|items| - 1], b)
  }

  /** What one argument of `execute` does. */
  function FlattenItem(reg: Registry, item: Item, b: nat): seq<Action>
    decreases b, item
  {
    match item
    case Single(t) => [Launch(t)]
    case Group(sub) => Flatten(reg, sub, b)
    case Name(s) => FlattenName(reg, s, b)
  }

  /** What a string argument of `execute` does: the messages about it, or what its key stands for. */
  function FlattenName(reg: Registry, s: string, b: nat): seq<Action>
    decreases b, s
  {
    var (key, notes) := Resolve(reg, s);
    Reports(notes) +
    match Position(reg, key)
    case None => [Report("Unknown target '" + key + "'")]
    case Some(j) => if j < b then FlattenItem(reg, reg[j].value, j) else []
  }

  lemma {:induction false} RefsBelowAppend(reg: Registry, a: seq<Item>, c: seq<Item>, b: nat)
    ensures RefsBelow(reg, a + c, b) <==> RefsBelow(reg, a, b) && RefsBelow(reg, c, b)
    decreases c
  {
    if c == [] {
      assert a + c == a;
    } else {
      var init := c[..|c| - 1];
      assert (a + c)[..|a + c| - 1] == a + init;
      RefsBelowAppend(reg, a, init, b);
    }
  }

  /** Every target passed directly among the arguments is launched. */
  lemma {:induction false} SinglesLaunched(reg: Registry, items: seq<Item>, b: nat, t: Target)
    requires Single(t) in items
    ensures Launch(t) in Flatten(reg, items, b)
    decreases items
  {
    var init := items[..|items| - 1];
    if Single(t) in init {
      SinglesLaunched(reg, init, b, t);
    } else {
      assert items == init + [items[|items| - 1]];
    }
  }

  /** Arguments are handled left to right, each one completely before the next. */
  lemma {:induction false} FlattenAppend(reg: Registry, a: seq<Item>, c: seq<Item>, b: nat)
    ensures Flatten(reg, a + c, b) == Flatten(reg, a, b) + Flatten(reg, c, b)
    decreases c
  {
    if c == [] {
      assert a + c == a;
    } else {
      var init := c[..|c| - 1];
      FlattenAppend(reg, a, init, b);
      assert (a + c)[..|a + c| - 1] == a + init;
    }
  }

  /**
   * A target is executed once per occurrence, a list stands for its
   * elements in order, and a key stands for its value.
   */
  lemma FlattenItems(reg: Registry, t: Target, sub: seq<Item>, j: nat)
    requires Registered(reg) && RefsBelow(reg, sub, |reg|) && j < |reg|
    ensures FlattenItem(reg, Single(t), |reg|) == [Launch(t)]
    ensures ItemRefsBelow(reg, Group(sub), |reg|) && FlattenItem(reg, Group(sub), |reg|) == Flatten(reg, sub, |reg|)
    ensures ParseInt(reg[j].name).None? ==>
      ItemRefsBelow(reg, Name(reg[j].name), |reg|) && RefsEarlier(reg, j) &&
      FlattenItem(reg, Name(reg[j].name), |reg|) == FlattenItem(reg, reg[j].value, j)
  {
    if ParseInt(reg[j].name).None? {
      PositionOfKey(reg, j);
    }
  }

  /**
   * A number `n` names the `n`-th key counting from one, and a number
   * from `-|reg| + 1` to `0` counts back from the last key, as a Python
   * list index `n - 1` does.
   */
  lemma NumberSelects(reg: Registry, s: string, n: int)
    requires Registered(reg) && ParseInt(s) == Some(n) && -|reg| < n <= |reg|
    ensures var j := if n >= 1 then n - 1 else |reg| + n - 1;
      0 <= j < |reg| && ItemRefsBelow(reg, Name(s), |reg|) && RefsEarlier(reg, j) &&
      FlattenItem(reg, Name(s), |reg|) == FlattenItem(reg, reg[j].value, j)
  {
    var j := if n >= 1 then n - 1 else |reg| + n - 1;
    ResolveNumber(reg, s, n);
    PositionOfKey(reg, j);
    KeySelects(reg, s, j);
  }

  /** An argument that resolves to the key declared at `j` does what that key's value does. */
  lemma KeySelects(reg: Registry, s: string, j: nat)
    requires j < |reg| && Resolve(reg, s) == (reg[j].name, []) && Position(reg, reg[j].name) == Some(j)
    ensures ItemRefsBelow(reg, Name(s), |reg|)
    ensures FlattenItem(reg, Name(s), |reg|) == FlattenItem(reg, reg[j].value, j)
  {
    assert Reports([]) == [];
  }

  /** The key a number in range resolves to, with no message. */
  lemma ResolveNumber(reg: Registry, s: string, n: int)
    requires ParseInt(s) == Some(n) && -|reg| < n <= |reg|
    ensures var j := if n >= 1 then n - 1 else |reg| + n - 1;
      0 <= j < |reg| && Resolve(reg, s) == (reg[j].name, [])
  {
    NumberInRange(reg, s, n);
  }

  /** A number in range picks its key whatever the argument's text. */
  lemma NumberInRange(reg: Registry, s: string, n: int)
    requires -|reg| < n <= |reg|
    ensures var j := if n >= 1 then n - 1 else |reg| + n - 1;
      0 <= j < |reg| && ResolveParsed(reg, s, Some(n)) == (reg[j].name, [])
  {
    var j := if n >= 1 then n - 1 else |reg| + n - 1;
    assert Keys(reg)[j] == reg[j].name;
  }

  /** With distinct keys, a key is found where it is declared. */
  lemma PositionOfKey(reg: Registry, j: nat)
    requires DistinctKeys(reg) && j < |reg|
    ensures Position(reg, reg[j].name) == Some(j)
  {
    assert Keys(reg)[j] == reg[j].name;
  }

  /** A name that is neither a key nor a number is reported, and nothing is executed for it. */
  lemma UnknownNameReported(reg: Registry, s: string, b: nat)
    requires ParseInt(s).None? && s !in Keys(reg)
    ensures ItemRefsBelow(reg, Name(s), b)
    ensures FlattenItem(reg, Name(s), b) == [Report("Unknown target '" + s + "'")]
  {
    assert Resolve(reg, s) == (s, []);
  }

  /**
   * A number past the registry in either direction produces both messages,
   * the first with the number as read and the second with the argument as
   * given, and nothing is executed.
   */
  lemma OutOfRangeNumberReported(reg: Registry, s: string, n: int, b: nat)
    requires ParseInt(s) == Some(n) && (n > |reg| || n <= -|reg|) && s !in Keys(reg)
    ensures ItemRefsBelow(reg, Name(s), b)
    ensures FlattenItem(reg, Name(s), b) ==
      [Report("Unknown target number '" + IntToString(n)), Report("Unknown target '" + s + "'")]
  {
    var note := "Unknown target number '" + IntToString(n);
    NumberOutOfRange(reg, s, n);
    assert Resolve(reg, s) == (s, [note]);
    assert Reports([note]) == [Report(note)];
  }

  /** A number past the registry resolves to the argument itself, with a message giving the number. */
  lemma NumberOutOfRange(reg: Registry, s: string, n: int)
    requires n > |reg| || n <= -|reg|
    ensures ResolveParsed(reg, s, Some(n)) == (s, ["Unknown target number '" + IntToString(n)])
  {
  }

  // ------------------------------------------------------------- results

  /** The launch of a target: HTTP status of the submitted form and the address it led to. */
  datatype Reply = Reply(code: int, url: string)

  /** The results line `executeTarget` adds. */
  function ResultLine(t: Target, reply: Reply): string {
    if reply.code == 200 then t.relPath + " execution started on " + reply.url
    else "Couldn't start execution for " + t.relPath
  }

  /** The results line of one step; `reply` is how Touchstone answers the launch of a target. */
  function LineOf(a: Action, reply: Target -> Reply): string {
    match a
    case Report(line) => line
    case Launch(t) => ResultLine(t, reply(t))
  }

  /** The results lines of `actions`, in order. */
  function Lines(actions: seq<Action>, reply: Target -> Reply): seq<string> {
    if actions == [] then []
    else Lines(actions[..|actions| - 1], reply) + [LineOf(actions[|actions| - 1], reply)]
  }

  /** Every step adds exactly one line: its message, or the outcome of launching its target. */
  lemma {:induction false} LinesEach(actions: seq<Action>, reply: Target -> Reply)
    ensures |Lines(actions, reply)| == |actions|
    ensures forall k :: 0 <= k < |actions| ==> Lines(actions, reply)[k] == LineOf(actions[k], reply)
  {
    if actions != [] {
      LinesEach(actions[..|actions| - 1], reply);
    }
  }

  /** The lines of two runs of steps, one after the other, added after earlier results. */
  lemma {:induction false} LinesAppend(prior: seq<string>, a: seq<Action>, c: seq<Action>, reply: Target -> Reply)
    ensures prior + Lines(a, reply) + Lines(c, reply) == prior + Lines(a + c, reply)
  {
    LinesConcat(a, c, reply);
  }

  lemma {:induction false} LinesConcat(a: seq<Action>, c: seq<Action>, reply: Target -> Reply)
    ensures Lines(a + c, reply) == Lines(a, reply) + Lines(c, reply)
    decreases c
  {
    if c == [] {
      assert a + c == a;
    } else {
      var init := c[..|c| - 1];
      LinesConcat(a, init, reply);
      assert (a + c)[..|a + c| - 1] == a + init;
    }
  }

  /** Messages are added as they are. */
  lemma {:induction false} ReportsLines(lines: seq<string>, reply: Target -> Reply)
    ensures Lines(Reports(lines), reply) == lines
  {
    if lines != [] {
      ReportsLines(lines[..|lines| - 1], reply);
      assert Reports(lines)[..|lines| - 1] == Reports(lines[..|lines| - 1]);
    }
  }

  // -------------------------------------------------------------- params

  /** The variables the form is filled with: "T" is added as `dateT` when absent. */
  function DefaultParams(params: Option<map<string, string>>, dateT: string): map<string, string> {
    match params
    case None => map["T" := dateT]
    case Some(m) => if "T" in m then m else m["T" := dateT]
  }

  /**
   * The defaulted variables hold "T" and the given ones; a given value,
   * "T" included, is never changed, and a missing "T" is `dateT`.
   */
  lemma DefaultParamsProperties(params: Option<map<string, string>>, dateT: string)
    ensures var r := DefaultParams(params, dateT);
      var given := if params.Some? then params.value else map[];
      r.Keys == given.Keys + {"T"} &&
      (forall k :: k in given ==> r[k] == given[k]) &&
      ("T" !in given ==> r["T"] == dateT)
  {
  }

  /**
   * Executing the same registry target again finds its params already
   * defaulted (the target object is shared), and defaulting again changes
   * nothing.
   */
  lemma DefaultParamsIdempotent(params: Option<map<string, string>>, dateT: string)
    ensures DefaultParams(Some(DefaultParams(params, dateT)), dateT) == DefaultParams(params, dateT)
  {
  }

  // ---------------------------------------------------------- the listing

  /** The string elements of a list target, in order. */
  function SubtargetNames(items: seq<Item>): (names: seq<string>)
    ensures |names| <= |items|
  {
    if items == [] then []
    else SubtargetNames(items[..|items| - 1]) + (if items[|items| - 1].Name? then [items[|items| - 1].s] else [])
  }

  /** The names are exactly the string elements of the list. */
  lemma {:induction false} SubtargetNamesFilter(items: seq<Item>)
    ensures forall n :: n in SubtargetNames(items) <==> Name(n) in items
    decreases |items|
  {
    if items != [] {
      var init := items[..|items| - 1];
      SubtargetNamesFilter(init);
      assert items == init + [items[|items| - 1]];
    }
  }

  /** The line `printTargets` prints for the key at position `i`. */
  function TargetLine(reg: Registry, i: nat): string
    requires i < |reg|
  {
    var subs := if reg[i].value.Group? then SubtargetNames(reg[i].value.items) else [];
    Pad2(i + 1) + ".  " + reg[i].name + (if |subs| > 0 then " (" + Join(subs, ", ") + ")" else "")
  }

  /**
   * The first two characters of a line are a number `execute` reads as
   * that very key; the name follows ".  ", and something follows the name
   * exactly when the value is a list with at least one name in it.
   */
  lemma TargetLineSelects(reg: Registry, i: nat)
    requires i < |reg| && i + 1 < 100
    ensures var line := TargetLine(reg, i);
      |line| >= 5 + |reg[i].name| &&
      Resolve(reg, line[..2]) == (reg[i].name, []) &&
      line[2..5] == ".  " && line[5..5 + |reg[i].name|] == reg[i].name &&
      (|line| > 5 + |reg[i].name| <==> reg[i].value.Group? && SubtargetNames(reg[i].value.items) != [])
  {
    Pad2Properties(i + 1);
    ResolveNumber(reg, Pad2(i + 1), i + 1);
    TargetLineParts(reg, i);
  }

  /** The pieces of a line, at the places the padded number's width puts them. */
  lemma TargetLineParts(reg: Registry, i: nat)
    requires i < |reg|
    ensures var line := TargetLine(reg, i);
      var p := Pad2(i + 1);
      var name := reg[i].name;
      |line| >= |p| + 3 + |name| && line[..|p|] == p && line[|p|..|p| + 3] == ".  " &&
      line[|p| + 3..|p| + 3 + |name|] == name &&
      (|line| > |p| + 3 + |name| <==> reg[i].value.Group? && SubtargetNames(reg[i].value.items) != [])
  {
    var line := TargetLine(reg, i);
    var p := Pad2(i + 1);
    var name := reg[i].name;
    var subs := if reg[i].value.Group? then SubtargetNames(reg[i].value.items) else [];
    var tail := if |subs| > 0 then " (" + Join(subs, ", ") + ")" else "";
    assert line == ((p + ".  ") + name) + tail;
    assert line[..|p|] == p;
    assert line[|p|..|p| + 3] == ".  ";
    assert line[|p| + 3..|p| + 3 + |name|] == name;
  }

  /** One line of `printTargets`, built with the appends the launcher makes. */
  method TargetLineOf(reg: Registry, i: nat) returns (line: string)
    requires i < |reg|
    ensures line == TargetLine(reg, i)
  {
    line := Pad2(i + 1);
    line := line + ".  " + reg[i].name;
    if reg[i].value.Group? {
      var subs := SubtargetNames(reg[i].value.items);
      if |subs| > 0 {
        line := line + " (" + Join(subs, ", ") + ")";
      }
    }
  }

  // ------------------------------------------------------------ launcher

  /** The launcher: the results it collects and the date used for "T". */
  class Launcher {
    var results: seq<string>
    var dateT: string

    /** `Launcher.__init__`, with today's Monday supplied by the caller. */
    constructor(dateT: string)
      ensures results == [] && this.dateT == dateT
    {
      results := [];
      this.dateT := dateT;
    }

    /** `printTargets`: one line per key, in declaration order. */
    method PrintTargets(reg: Registry) returns (lines: seq<string>)
      ensures |lines| == |reg|
      ensures forall i :: 0 <= i < |reg| ==> lines[i] == TargetLine(reg, i)
    {
      lines := [];
      for i := 0 to |reg|
        invariant |lines| == i
        invariant forall k :: 0 <= k < i ==> lines[k] == TargetLine(reg, k)
      {
        var line := TargetLineOf(reg, i);
        lines := lines + [line];
      }
    }

    /** `executeTarget`: fill in "T" and record whether the execution started. */
    method ExecuteTarget(target: Target, reply: Reply) returns (launched: Target)
      modifies this
      ensures launched == target.(params := Some(DefaultParams(target.params, dateT)))
      ensures results == old(results) + [ResultLine(target, reply)]
      ensures dateT == old(dateT)
    {
      var params: map<string, string>;
      if target.params.None? {
        params := map["T" := dateT];
      } else if "T" !in target.params.value {
        params := target.params.value["T" := dateT];
      } else {
        params := target.params.value;
      }
      launched := target.(params := Some(params));
      if reply.code == 200 {
        results := results + [target.relPath + " execution started on " + reply.url];
      } else {
        results := results + ["Couldn't start execution for " + target.relPath];
      }
    }

    /** `execute(*items)`, where `reply` stands for the answers of the Touchstone server. */
    method Execute(reg: Registry, items: seq<Item>, ghost b: nat, reply: Target -> Reply)
      requires Registered(reg) && b <= |reg| && RefsBelow(reg, items, b)
      modifies this
      ensures results == old(results) + Lines(Flatten(reg, items, b), reply)
      ensures dateT == old(dateT)
      decreases b, items
    {
      for i := 0 to |items|
        invariant results == old(results) + Lines(Flatten(reg, items[..i], b), reply)
        invariant dateT == old(dateT)
      {
        FlattenPrefix(reg, items, i, b);
        LinesAppend(old(results), Flatten(reg, items[..i], b), FlattenItem(reg, items[i], b), reply);
        ExecuteOne(reg, items[i], b, reply);
      }
      assert items[..|items|] == items;
    }

    /** One argument of `execute`. */
    method ExecuteOne(reg: Registry, item: Item, ghost b: nat, reply: Target -> Reply)
      requires Registered(reg) && b <= |reg| && ItemRefsBelow(reg, item, b)
      modifies this
      ensures results == old(results) + Lines(FlattenItem(reg, item, b), reply)
      ensures dateT == old(dateT)
      decreases b, item
    {
      match item
      case Single(t) => {
        var _ := ExecuteTarget(t, reply(t));
      }
      case Group(sub) => {
        Execute(reg, sub, b, reply);
      }
      case Name(s) => {
        ExecuteName(reg, s, b, reply);
      }
    }

    /** A string argument of `execute`: a key, or the number of one. */
    method ExecuteName(reg: Registry, s: string, ghost b: nat, reply: Target -> Reply)
      requires Registered(reg) && b <= |reg| && ItemRefsBelow(reg, Name(s), b)
      modifies this
      ensures results == old(results) + Lines(FlattenName(reg, s, b), reply)
      ensures dateT == old(dateT)
      decreases b, s
    {
      var (key, notes) := Resolve(reg, s);
      results := results + notes;
      var p := Position(reg, key);
      ReportsLines(notes, reply);
      if p.None? {
        var line := "Unknown target '" + key + "'";
        results := results + [line];
        assert FlattenName(reg, s, b) == Reports(notes) + [Report(line)];
        LinesAppend(old(results), Reports(notes), [Report(line)], reply);
        assert Lines([Report(line)], reply) == [line];
      } else {
        var v := reg[p.value].value;
        assert RefsEarlier(reg, p.value);
        FlattenSingle(reg, v, p.value);
        assert FlattenName(reg, s, b) == Reports(notes) + FlattenItem(reg, v, p.value);
        LinesAppend(old(results), Reports(notes), FlattenItem(reg, v, p.value), reply);
        Execute(reg, [v], p.value, reply);
      }
    }
  }

  /** `execute(x)` does what `x` does. */
  lemma FlattenSingle(reg: Registry, item: Item, b: nat)
    ensures RefsBelow(reg, [item], b) == ItemRefsBelow(reg, item, b)
    ensures Flatten(reg, [item], b) == FlattenItem(reg, item, b)
  {
    assert [item][..0] == [];
  }

  /** Taking one more item adds what that item does. */
  lemma FlattenPrefix(reg: Registry, items: seq<Item>, i: nat, b: nat)
    requires i < |items|
    ensures RefsBelow(reg, items, b) ==> ItemRefsBelow(reg, items[i], b)
    ensures Flatten(reg, items[..i + 1], b) == Flatten(reg, items[..i], b) + FlattenItem(reg, items[i], b)
  {
    assert items[..i + 1] + items[i + 1..] == items;
    assert items[..i + 1][..i] == items[..i];
    RefsBelowAppend(reg, items[..i + 1], items[i + 1..], b);
  }

  // ------------------------------------------------------------ TARGETS

  const TOUCHSTONE: string := "AEGIS.net, Inc. - TouchstoneFHIR"
  const WF_201901: string := "Nictiz - Nictiz WildFHIR V201901 - FHIR 3.0.2"
  const WF_202001: string := "Nictiz - Nictiz WildFHIR V202001 - FHIR 3.0.2"
  const WF_201901_DEV: string := "Nictiz - Nictiz WildFHIR V201901-Dev - FHIR 3.0.2"
  const WF_202001_DEV: string := "Nictiz - Nictiz WildFHIR V202001-Dev - FHIR 3.0.2"
  const WF_4: string := "Nictiz - R4 MedMij - FHIR 4.0.1"
  const WF_4_NO_AUTH: string := "Nictiz - R4 (NoAuth) - FHIR 4.0.1"
  const WF_4_NO_AUTH_DEV: string := "Nictiz - R4 (NoAuth) (Dev) - FHIR 4.0.1"

  /** A target without params. */
  function Plain(relPath: string, origin: string, destination: string): Item {
    Single(NewTarget(relPath, One(origin), One(destination), None, false))
  }

  /** A load-script target. */
  function Loader(relPath: string, origin: string, destination: string): Item {
    Single(NewTarget(relPath, One(origin), One(destination), None, true))
  }

  const EOVERDRACHT_PARAMS: map<string, string> :=
    map["authorization-token-id" := "1234", "notificationEndpoint" := "http://example.com/eOverdracht"]

  const MP93: string := "dev/FHIR4-0-1-Test/MP9-3-0-0-beta/"

  /** The registry the starter ships with. */
  const TARGETS: Registry := [
    Decl("dev.Questionnaires2.Test.LoadResources", Loader("dev/FHIR3-0-2-MM202001-Test/Questionnaires-2-0/_LoadResources", TOUCHSTONE, WF_202001_DEV)),
    Decl("dev.Questionnaires2.Test.PHR", Plain("dev/FHIR3-0-2-MM202001-Test/Questionnaires-2-0/PHR-Client", TOUCHSTONE, WF_202001_DEV)),
    Decl("dev.Questionnaires2.Test.XIS", Plain("dev/FHIR3-0-2-MM202001-Test/Questionnaires-2-0/XIS-Server-Nictiz-intern", TOUCHSTONE, WF_202001_DEV)),
    Decl("dev.BgLZ3.Test", Plain("dev/FHIR3-0-2-MM202002-Test/BgLZ-3-0", TOUCHSTONE, WF_202001_DEV)),
    Decl("dev.MM2020.01.Test.LoadResources", Group([Name("dev.Questionnaires2.Test.LoadResources")])),
    Decl("dev.Medication-907.Test", Plain("dev/FHIR3-0-2-MM201901-Test/Medication-9-0-7-test", TOUCHSTONE, WF_201901_DEV)),
    Decl("dev.MP9.3.Test", Group([
      Plain(MP93 + "PrescrProcessing/Receive", TOUCHSTONE, WF_4_NO_AUTH_DEV),
      Plain(MP93 + "PrescrProcessing/Send-Nictiz-intern", TOUCHSTONE, WF_4_NO_AUTH_DEV),
      Plain(MP93 + "ProposalMA/Receive", TOUCHSTONE, WF_4_NO_AUTH_DEV),
      Plain(MP93 + "ProposalMA/Send-Nictiz-intern", TOUCHSTONE, WF_4_NO_AUTH_DEV),
      Plain(MP93 + "ProposalVV/Receive", TOUCHSTONE, WF_4_NO_AUTH_DEV),
      Plain(MP93 + "ProposalVV/Send-Nictiz-intern", TOUCHSTONE, WF_4_NO_AUTH_DEV),
      Plain(MP93 + "ReplyProposalMA/Receive", TOUCHSTONE, WF_4_NO_AUTH_DEV),
      Plain(MP93 + "ReplyProposalMA/Send-Nictiz-intern", TOUCHSTONE, WF_4_NO_AUTH_DEV),
      Plain(MP93 + "ReplyProposalVV/Receive", TOUCHSTONE, WF_4_NO_AUTH_DEV),
      Plain(MP93 + "ReplyProposalVV/Send-Nictiz-intern", TOUCHSTONE, WF_4_NO_AUTH_DEV)])),
    Decl("dev.eOverdracht4.Test.LoadResources", Loader("dev/FHIR3-0-2-eOverdracht4-0/Test/_LoadResources", TOUCHSTONE, WF_202001_DEV)),
    Decl("dev.eOverdracht4.Cert.LoadResources", Loader("dev/FHIR3-0-2-eOverdracht4-0/Cert/_LoadResources", TOUCHSTONE, WF_202001_DEV)),
    Decl("dev.eOverdracht4.LoadResources", Group([Name("dev.eOverdracht4.Test.LoadResources"), Name("dev.eOverdracht4.Cert.LoadResources")])),
    Decl("dev.eOverdracht4.Test.Receiving-XIS",
      Single(NewTarget("FHIR3-0-2-eOverdracht4-0/Test/Receiving-XIS", One(TOUCHSTONE), One(WF_202001_DEV), Some(EOVERDRACHT_PARAMS), false))),
    Decl("dev.eOverdracht4.Test.Sending-XIS-Nictiz-only",
      Single(NewTarget("FHIR3-0-2-eOverdracht4-0/Test/Sending-XIS-Nictiz-only", Many([TOUCHSTONE, TOUCHSTONE]), Many([WF_202001_DEV, WF_202001_DEV]), None, false))),
    Decl("dev.eOverdracht4.Cert.Receiving-XIS",
      Single(NewTarget("FHIR3-0-2-eOverdracht4-0/Cert/Receiving-XIS", One(TOUCHSTONE), One(WF_202001_DEV), Some(EOVERDRACHT_PARAMS), false))),
    Decl("dev.eOverdracht4.Cert.Sending-XIS-Nictiz-only",
      Single(NewTarget("FHIR3-0-2-eOverdracht4-0/Cert/Sending-XIS-Nictiz-only", Many([TOUCHSTONE, TOUCHSTONE]), Many([WF_202001_DEV, WF_202001_DEV]), None, false))),
    Decl("dev.eOverdracht4.Test", Group([Name("dev.eOverdracht4.Test.Receiving-XIS"), Name("dev.eOverdracht4.Test.Sending-XIS-Nictiz-only")])),
    Decl("dev.eOverdracht4.Cert", Group([Name("dev.eOverdracht4.Cert.Receiving-XIS"), Name("dev.eOverdracht4.Cert.Sending-XIS-Nictiz-only")])),
    Decl("dev.eOverdracht4", Group([Name("dev.eOverdracht4.Test"), Name("dev.eOverdracht4.Cert")])),
    Decl("MM2019.01.Test.LoadResources", Loader("FHIR3-0-2-MM201901-Test/_LoadResources", TOUCHSTONE, WF_201901)),
    Decl("MM2019.01.Cert.LoadResources", Loader("FHIR3-0-2-MM201901-Cert/_LoadResources", TOUCHSTONE, WF_201901)),
    Decl("Geboortezorg.LoadResources", Loader("FHIR3-0-2-Geboortezorg/_LoadResources", TOUCHSTONE, WF_202001)),
    Decl("MM2020.01.Test.LoadResources", Loader("FHIR3-0-2-MM202001-Test/_LoadResources", TOUCHSTONE, WF_202001)),
    Decl("MM2020.01.Cert.LoadResources", Loader("FHIR3-0-2-MM202001-Cert/_LoadResources", TOUCHSTONE, WF_202001)),
    Decl("MM2020.02.Test.LoadResources", Loader("FHIR3-0-2-MM202002-Test/_LoadResources", TOUCHSTONE, WF_202001)),
    Decl("MM2020.02.Cert.LoadResources", Loader("FHIR3-0-2-MM202002-Cert/_LoadResources", TOUCHSTONE, WF_202001)),
    Decl("MedMij6.Test.LoadResources", Loader("FHIR4-0-1-MedMij-Test/_LoadResources", TOUCHSTONE, WF_4)),
    Decl("MedMij6.Cert.LoadResources", Loader("FHIR4-0-1-MedMij-Cert/_LoadResources", TOUCHSTONE, WF_4)),
    Decl("FHIR4.Test.LoadResources", Loader("FHIR4-0-1-Test/_LoadResources", TOUCHSTONE, WF_4_NO_AUTH)),
    Decl("LoadResources", Group([
      Name("MM2019.01.Test.LoadResources"),
      Name("MM2019.01.Cert.LoadResources"),
      Name("MM2020.01.Test.LoadResources"),
      Name("MM2020.01.Cert.LoadResources"),
      Name("MM2020.02.Test.LoadResources"),
      Name("MM2020.02.Cert.LoadResources"),
      Name("Geboortezorg.LoadResources"),
      Name("MedMij6.Test.LoadResources"),
      Name("MedMij6.Cert.LoadResources"),
      Name("FHIR4.Test.LoadResources")]))
  ]

  // ------------------------------------------------- the shipped registry

  /** Each item of a list refers only below `b`, so the list does. */
  lemma {:induction false} AllRefsBelow(reg: Registry, items: seq<Item>, b: nat)
    requires forall k :: 0 <= k < |items| ==> ItemRefsBelow(reg, items[k], b)
    ensures RefsBelow(reg, items, b)
    decreases |items|
  {
    if items != [] {
      AllRefsBelow(reg, items[..|items| - 1], b);
    }
  }

  predicate IsLetter(c: char) {
    'A' <= c <= 'Z' || 'a' <= c <= 'z'
  }

  /** A key that starts with a letter and ends in a letter or digit, as every shipped key does. */
  predicate KeyLike(s: string) {
    |s| > 0 && IsLetter(s[0]) && (IsLetter(s[|s| - 1]) || IsDigit(s[|s| - 1]))
  }

  /** `int` rejects a key-like key, so `execute` looks it up by name. */
  lemma KeyLikeIsNoNumber(s: string)
    requires KeyLike(s)
    ensures ParseInt(s).None?
  {
    StripUnchanged(s);
    if IsNumeral(s) {
      NumeralFirst(s);
    }
  }

  /**
   * The entry at `j` has the shape of an entry of the shipped table: with
   * `idx` empty, a target or a list of targets; otherwise a list naming the
   * key-like keys declared at `idx`, all before `j`.
   */
  predicate ShapedAt(reg: Registry, j: nat, idx: seq<nat>)
    requires j < |reg|
  {
    var v := reg[j].value;
    if idx == [] then
      v.Single? || (v.Group? && forall k :: 0 <= k < |v.items| ==> v.items[k].Single?)
    else
      v.Group? && |v.items| == |idx| &&
      forall k :: 0 <= k < |idx| ==> idx[k] < j && KeyLike(reg[idx[k]].name) && v.items[k] == Name(reg[idx[k]].name)
  }

  /** The same for every entry, with `lists[j]` the keys the entry at `j` names. */
  predicate ShapedAs(reg: Registry, lists: seq<seq<nat>>) {
    |lists| == |reg| && forall j :: 0 <= j < |reg| ==> ShapedAt(reg, j, lists[j])
  }

  /** A list naming key-like keys declared before `j` refers only to earlier keys. */
  lemma NamesEarlier(reg: Registry, j: nat, idx: seq<nat>)
    requires DistinctKeys(reg) && j < |reg| && idx != [] && ShapedAt(reg, j, idx)
    ensures RefsEarlier(reg, j)
  {
    var items := reg[j].value.items;
    forall k | 0 <= k < |items|
      ensures ItemRefsBelow(reg, items[k], j)
    {
      KeyLikeIsNoNumber(reg[idx[k]].name);
      PositionOfKey(reg, idx[k]);
    }
    AllRefsBelow(reg, items, j);
  }

  /** A registry of that shape whose keys are distinct is well formed. */
  lemma RegisteredByShape(reg: Registry, lists: seq<seq<nat>>)
    requires DistinctKeys(reg) && ShapedAs(reg, lists)
    ensures Registered(reg)
  {
    forall j | 0 <= j < |reg|
      ensures RefsEarlier(reg, j)
    {
      if lists[j] != [] {
        NamesEarlier(reg, j, lists[j]);
      } else if reg[j].value.Group? {
        AllRefsBelow(reg, reg[j].value.items, j);
      }
    }
  }

  /** Keys at `lo` up to `hi` differ from every later key. */
  predicate KeysDistinctFrom(reg: Registry, lo: nat, hi: nat) {
    forall j, k :: lo <= j < hi && j < k < |reg| ==> reg[j].name != reg[k].name
  }

  lemma KeysDistinctJoin(reg: Registry, lo: nat, mid: nat, hi: nat)
    requires KeysDistinctFrom(reg, lo, mid) && KeysDistinctFrom(reg, mid, hi)
    ensures KeysDistinctFrom(reg, lo, hi)
  {
  }

  /** For each entry of `TARGETS`, the keys its list names (none for a target or a list of targets). */
  const TARGET_LISTS: seq<seq<nat>> :=
    [[], [], [], [], [0], [], [], [], [], [7, 8], [], [], [], [], [10, 11], [12, 13], [14, 15],
     [], [], [], [], [], [], [], [], [], [], [17, 18, 20, 21, 22, 23, 19, 24, 25, 26]]

  // The keys of `TARGETS`, compared range by range so that each proof stays small.

  lemma TargetKeysDistinct1()
    ensures KeysDistinctFrom(TARGETS, 0, 2)
  {
  }

  lemma TargetKeysDistinct2()
    ensures KeysDistinctFrom(TARGETS, 2, 4)
  {
  }

  lemma TargetKeysDistinct3()
    ensures KeysDistinctFrom(TARGETS, 4, 6)
  {
  }

  lemma TargetKeysDistinct4()
    ensures KeysDistinctFrom(TARGETS, 6, 8)
  {
  }

  lemma TargetKeysDistinct5()
    ensures KeysDistinctFrom(TARGETS, 8, 10)
  {
  }

  lemma TargetKeysDistinct6()
    ensures KeysDistinctFrom(TARGETS, 10, 13)
  {
  }

  lemma TargetKeysDistinct7()
    ensures KeysDistinctFrom(TARGETS, 13, 18)
  {
  }

  lemma TargetKeysDistinct8()
    ensures KeysDistinctFrom(TARGETS, 18, 28)
  {
  }

  /** No key of `TARGETS` is declared twice. */
  lemma TargetsDistinct()
    ensures DistinctKeys(TARGETS)
  {
    TargetKeysDistinct1();
    TargetKeysDistinct2();
    TargetKeysDistinct3();
    TargetKeysDistinct4();
    TargetKeysDistinct5();
    TargetKeysDistinct6();
    TargetKeysDistinct7();
    TargetKeysDistinct8();
    KeysDistinctJoin(TARGETS, 0, 2, 4);
    KeysDistinctJoin(TARGETS, 0, 4, 6);
    KeysDistinctJoin(TARGETS, 0, 6, 8);
    KeysDistinctJoin(TARGETS, 0, 8, 10);
    KeysDistinctJoin(TARGETS, 0, 10, 13);
    KeysDistinctJoin(TARGETS, 0, 13, 18);
    KeysDistinctJoin(TARGETS, 0, 18, 28);
  }

  /** The entries of `TARGETS` with an empty list in `TARGET_LISTS` are targets or lists of targets. */
  lemma TargetsPlainShaped()
    ensures forall j | 0 <= j < |TARGETS| && TARGET_LISTS[j] == [] :: ShapedAt(TARGETS, j, TARGET_LISTS[j])
  {
  }

  /** Only these entries of `TARGETS` hold names. */
  lemma TargetListsAt()
    ensures |TARGET_LISTS| == 28
    ensures forall j | 0 <= j < 28 && TARGET_LISTS[j] != [] :: j == 4 || j == 9 || j == 14 || j == 15 || j == 16 || j == 27
    ensures TARGET_LISTS[4] == [0] && TARGET_LISTS[9] == [7, 8] && TARGET_LISTS[14] == [10, 11]
    ensures TARGET_LISTS[15] == [12, 13] && TARGET_LISTS[16] == [14, 15]
    ensures TARGET_LISTS[27] == [17, 18, 20, 21, 22, 23, 19, 24, 25, 26]
  {
  }

  /** `dev.MM2020.01.Test.LoadResources` lists earlier keys. */
  lemma TargetListShaped4()
    ensures ShapedAt(TARGETS, 4, [0])
  {
  }

  /** `dev.eOverdracht4.LoadResources` lists earlier keys. */
  lemma TargetListShaped9()
    ensures ShapedAt(TARGETS, 9, [7, 8])
  {
  }

  /** `dev.eOverdracht4.Test` lists earlier keys. */
  lemma TargetListShaped14()
    ensures ShapedAt(TARGETS, 14, [10, 11])
  {
    assert KeyLike(TARGETS[10].name) && KeyLike(TARGETS[11].name);
    assert TARGETS[14].value == Group([Name(TARGETS[10].name), Name(TARGETS[11].name)]);
  }

  /** `dev.eOverdracht4.Cert` lists earlier keys. */
  lemma TargetListShaped15()
    ensures ShapedAt(TARGETS, 15, [12, 13])
  {
    assert KeyLike(TARGETS[12].name) && KeyLike(TARGETS[13].name);
    assert TARGETS[15].value == Group([Name(TARGETS[12].name), Name(TARGETS[13].name)]);
  }

  /** `dev.eOverdracht4` lists earlier keys. */
  lemma TargetListShaped16()
    ensures ShapedAt(TARGETS, 16, [14, 15])
  {
  }

  /** `LoadResources` lists earlier keys. */
  lemma TargetListShaped27()
    ensures ShapedAt(TARGETS, 27, [17, 18, 20, 21, 22, 23, 19, 24, 25, 26])
  {
  }

  /** The shipped registry is well formed: its keys are distinct and each list names only earlier keys. */
  lemma TargetsRegistered()
    ensures Registered(TARGETS)
  {
    TargetsDistinct();
    TargetsPlainShaped();
    TargetListsAt();
    TargetListShaped4();
    TargetListShaped9();
    TargetListShaped14();
    TargetListShaped15();
    TargetListShaped16();
    TargetListShaped27();
    RegisteredByShape(TARGETS, TARGET_LISTS);
  }
}
