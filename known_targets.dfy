/**
 * `KnownTargets` (ts.py): the numbered target folders and the resolution of
 * a folder number into the settings needed to execute or upload it. The
 * settings of a folder are those of the folder itself and of its
 * ancestors; for origins, destinations, access and "block until complete"
 * the most specific folder that sets them wins, while the params of all of
 * them are merged with the more general folder winning a clash.
 */
module KnownTargets {
  import opened Wrappers
  import opened Strings
  import opened Decimal
  import opened Yaml
  import opened Paths
  import opened DirectoryTree
  import opened Properties

  /** The state `KnownTargets.__init__` sets up and nothing changes afterwards. */
  datatype Known = Known(dirs: seq<Path>, dev: seq<Record>, production: seq<Record>)

  /** The exceptions resolving a target raises. */
  datatype TargetError =
    | NoSuchTarget(arg: string)
    | IndexError
    | ParamsNotMapping(folder: Path)
    | NoOrigins(relPath: string)
    | NoDestinations(relPath: string)
    | NoAccess(relPath: string)
    | NoValidator(relPath: string)

  /** Python's `s[k]`: negative indices count from the end. */
  function PyIndex<T>(s: seq<T>, k: int): Option<T> {
    if 0 <= k < |s| then Some(s[k])
    else if -|s| <= k < 0 then Some(s[|s| + k])
    else None
  }

  /** `get`: the folder shown under number `arg` by `list`. */
  function Get(dirs: seq<Path>, arg: string): (r: Result<Path, TargetError>)
    ensures r == Err(NoSuchTarget(arg)) <==> ParseInt(arg).None?
    ensures r.Ok? ==> r.value in dirs
    ensures r == Err(IndexError) <==> ParseInt(arg).Some? && (ParseInt(arg).value > |dirs| || ParseInt(arg).value <= -|dirs|)
  {
    match ParseInt(arg)
    case None => Err(NoSuchTarget(arg))
    case Some(index) =>
      match PyIndex(dirs, index - 1)
      case None => Err(IndexError)
      case Some(dir) => Ok(dir)
  }

  /** The line `list` prints for the folder at position `i`. */
  function ListedLine(dirs: seq<Path>, i: nat): string
    requires i < |dirs|
  {
    NatToString(i + 1) + ". " + RelPosix(dirs[i])
  }

  predicate IsReferenceFolder(p: Path) {
    DirName(p) == REFERENCE
  }

  /**
   * `list`: one line per folder in scan order, `_reference` folders left
   * out on request while still using up their number.
   */
  method ListTargets(dirs: seq<Path>, excludeReference: bool) returns (lines: seq<string>, ghost shown: seq<nat>)
    ensures shown == ShownBelow(dirs, excludeReference, |dirs|)
    ensures ShownWithin(dirs, shown) && lines == ListedLines(dirs, shown)
    ensures lines == ListedLines(dirs, ShownBelow(dirs, excludeReference, |dirs|))
  {
    lines, shown := [], [];
    for i := 0 to |dirs|
      invariant shown == ShownBelow(dirs, excludeReference, i)
      invariant ShownWithin(dirs, shown) && lines == ListedLines(dirs, shown)
    {
      lines, shown := ListOne(dirs, excludeReference, i, lines, shown);
    }
  }

  /** One pass of the loop of `list`: the line for folder `i`, unless it is left out. */
  method ListOne(dirs: seq<Path>, excludeReference: bool, i: nat, lines: seq<string>, ghost shown: seq<nat>)
    returns (lines': seq<string>, ghost shown': seq<nat>)
    requires i < |dirs| && shown == ShownBelow(dirs, excludeReference, i)
    requires ShownWithin(dirs, shown) && lines == ListedLines(dirs, shown)
    ensures shown' == ShownBelow(dirs, excludeReference, i + 1)
    ensures ShownWithin(dirs, shown') && lines' == ListedLines(dirs, shown')
    ensures lines' == ListedLines(dirs, ShownBelow(dirs, excludeReference, i + 1))
  {
    lines', shown' := lines, shown;
    if !(excludeReference && IsReferenceFolder(dirs[i])) {
      lines' := lines + [ListedLine(dirs, i)];
      shown' := shown + [i];
      assert shown'[..|shown|] == shown;
    }
  }

  /** The folders among the first `n` that `list` shows, in scan order. */
  function ShownBelow(dirs: seq<Path>, excludeReference: bool, n: nat): seq<nat>
    requires n <= |dirs|
  {
    if n == 0 then []
    else ShownBelow(dirs, excludeReference, n - 1) + (if excludeReference && IsReferenceFolder(dirs[n - 1]) then [] else [n - 1])
  }

  /** The folders shown are those not left out, each once and in increasing order. */
  lemma {:induction false} ShownBelowFacts(dirs: seq<Path>, excludeReference: bool, n: nat)
    requires n <= |dirs|
    ensures ShownWithin(dirs, ShownBelow(dirs, excludeReference, n))
    ensures forall k :: 0 <= k < |ShownBelow(dirs, excludeReference, n)| ==> ShownBelow(dirs, excludeReference, n)[k] < n
    ensures forall k, l :: 0 <= k < l < |ShownBelow(dirs, excludeReference, n)| ==>
      ShownBelow(dirs, excludeReference, n)[k] < ShownBelow(dirs, excludeReference, n)[l]
    ensures forall i :: 0 <= i < n ==>
      (i in ShownBelow(dirs, excludeReference, n) <==> !(excludeReference && IsReferenceFolder(dirs[i])))
  {
    if n > 0 {
      ShownBelowFacts(dirs, excludeReference, n - 1);
      var s := ShownBelow(dirs, excludeReference, n);
      var p := ShownBelow(dirs, excludeReference, n - 1);
      assert s[..|p|] == p;
      forall i | 0 <= i < n - 1
        ensures i in s <==> i in p
      {
        if i in s {
          var k :| 0 <= k < |s| && s[k] == i;
          assert k < |p| && p[k] == i;
        }
      }
    }
  }

  /** Every entry of `shown` is a position in `dirs`. */
  predicate ShownWithin(dirs: seq<Path>, shown: seq<nat>) {
    forall k :: 0 <= k < |shown| ==> shown[k] < |dirs|
  }

  /** The lines `list` prints for the folders `shown`, in order. */
  function ListedLines(dirs: seq<Path>, shown: seq<nat>): (lines: seq<string>)
    requires ShownWithin(dirs, shown)
    ensures |lines| == |shown|
  {
    seq(|shown|, k requires 0 <= k < |shown| => ListedLine(dirs, shown[k]))
  }

  /** The number `list` prints for a folder selects that folder again. */
  lemma ListedNumberSelects(dirs: seq<Path>, i: nat)
    requires i < |dirs|
    ensures Get(dirs, NatToString(i + 1)) == Ok(dirs[i])
  {
    ParseIntOfNatToString(i + 1);
  }

  /** Number 0 is the last folder, as Python indexes `dirs[-1]`. */
  lemma ZeroSelectsLast(dirs: seq<Path>)
    requires |dirs| > 0
    ensures Get(dirs, "0") == Ok(dirs[|dirs| - 1])
  {
    ParseIntOfNatToString(0);
  }

  // ---------------------------------------------------------------- targets

  const LOAD_RESOURCES: string := "_LoadResources"
  const ORIGINS: string := "origins"
  const DESTINATIONS: string := "destinations"
  const PARAMS: string := "params"
  const BLOCK: string := "block until complete"
  const ACCESS: string := "access"
  const VALIDATOR: string := "validator"

  /** An `ExecutionTarget`; `None` stands for Python's `None`. */
  datatype ExecutionTarget = ExecutionTarget(
    relPath: string,
    origins: Option<Value>,
    destinations: Option<Value>,
    params: map<string, Value>,
    block: Option<Value>,
    isLoadscriptFolder: bool)

  /** `setOrigins`, `setDestinations`, `setAccess`: a single name becomes a one-element list. */
  function Listify(v: Value): Option<Value> {
    if v.Null? then None else if v.Str? then Some(List([v])) else Some(v)
  }

  /** A loaded value as a Python object that may be `None`. */
  function OptionOf(v: Value): Option<Value> {
    if v.Null? then None else Some(v)
  }

  /** `dir.relative_to(root).as_posix()`, prefixed with `dev/` for dev targets. */
  function RelPathFor(dir: Path, kind: string): (s: string)
    ensures kind == "dev" ==> StartsWith(s, "dev/")
  {
    (if kind == "dev" then "dev/" else "") + RelPosix(dir)
  }

  /** The settings dictionary `kind` selects: dev for "dev", production otherwise. */
  function RecordsFor(known: Known, kind: string): seq<Record> {
    if kind == "dev" then known.dev else known.production
  }

  /** `dir == root or root in dir.parents`. */
  predicate Applies(rec: Record, dir: Path) {
    Below(dir, rec.path)
  }

  /** A new `ExecutionTarget` after `setLoadScriptFolder`. */
  function NewExecutionTarget(dir: Path, kind: string): ExecutionTarget {
    var load := DirName(dir) == LOAD_RESOURCES;
    ExecutionTarget(RelPathFor(dir, kind), None, None, map[], if load then Some(Bool(true)) else None, load)
  }

  /** One pass of the loop of `getExecutionTarget` over a settings record. */
  function Absorb(t: ExecutionTarget, dir: Path, rec: Record): (r: Result<ExecutionTarget, TargetError>)
    ensures r.Err? ==> Applies(rec, dir) && PARAMS in rec.attrs && !rec.attrs[PARAMS].Mapping?
    ensures !Applies(rec, dir) ==> r == Ok(t)
    ensures r.Ok? && t.origins.Some? ==> r.value.origins == t.origins
    ensures r.Ok? && t.destinations.Some? ==> r.value.destinations == t.destinations
    ensures r.Ok? && t.block.Some? ==> r.value.block == t.block
    ensures r.Ok? ==> t.params.Keys <= r.value.params.Keys
  {
    if !Applies(rec, dir) then Ok(t)
    else
      var a := rec.attrs;
      var t1 := if t.origins.None? && ORIGINS in a then t.(origins := Listify(a[ORIGINS])) else t;
      var t2 := if t1.destinations.None? && DESTINATIONS in a then t1.(destinations := Listify(a[DESTINATIONS])) else t1;
      if PARAMS in a && !a[PARAMS].Mapping? then Err(ParamsNotMapping(rec.path))
      else
        var t3 := if PARAMS in a then t2.(params := t2.params + ToMap(a[PARAMS].entries)) else t2;
        Ok(if t3.block.None? && BLOCK in a then t3.(block := OptionOf(a[BLOCK])) else t3)
  }

  /** The loop of `getExecutionTarget` over the records, in order. */
  function ResolveFrom(t: ExecutionTarget, dir: Path, records: seq<Record>): Result<ExecutionTarget, TargetError> {
    if records == [] then Ok(t)
    else
      match ResolveFrom(t, dir, records[..|records| - 1])
      case Err(e) => Err(e)
      case Ok(t') => Absorb(t', dir, records[|records| - 1])
  }

  /** `getExecutionTarget`, as a function of the known targets. */
  function ExecutionTargetFor(known: Known, arg: string, kind: string): (r: Result<ExecutionTarget, TargetError>)
    ensures r.Ok? ==> r.value.origins.Some? && r.value.destinations.Some?
  {
    match Get(known.dirs, arg)
    case Err(e) => Err(e)
    case Ok(dir) =>
      match ResolveFrom(NewExecutionTarget(dir, kind), dir, RecordsFor(known, kind))
      case Err(e) => Err(e)
      case Ok(t) =>
        if t.origins.None? then Err(NoOrigins(t.relPath))
        else if t.destinations.None? then Err(NoDestinations(t.relPath))
        else Ok(t)
  }

  /** `getExecutionTarget`. */
  method GetExecutionTarget(known: Known, arg: string, kind: string) returns (r: Result<ExecutionTarget, TargetError>)
    ensures r == ExecutionTargetFor(known, arg, kind)
  {
    var got := Get(known.dirs, arg);
    if got.Err? {
      return Err(got.error);
    }
    var dir := got.value;
    ghost var t0 := NewExecutionTarget(dir, kind);
    var target := NewExecutionTarget(dir, kind);
    var records := RecordsFor(known, kind);
    for i := 0 to |records|
      invariant ResolveFrom(t0, dir, records[..i]) == Ok(target)
    {
      var rec := records[i];
      ghost var before := target;
      ResolveStep(t0, dir, records, i);
      if Applies(rec, dir) {
        if target.origins.None? && ORIGINS in rec.attrs {
          target := target.(origins := Listify(rec.attrs[ORIGINS]));
        }
        if target.destinations.None? && DESTINATIONS in rec.attrs {
          target := target.(destinations := Listify(rec.attrs[DESTINATIONS]));
        }
        if PARAMS in rec.attrs {
          var p := rec.attrs[PARAMS];
          if !p.Mapping? {
            assert Absorb(before, dir, rec) == Err(ParamsNotMapping(rec.path));
            PrefixErrorPersists(t0, dir, records, i + 1);
            return Err(ParamsNotMapping(rec.path));
          }
          target := target.(params := target.params + ToMap(p.entries));
        }
        if target.block.None? && BLOCK in rec.attrs {
          target := target.(block := OptionOf(rec.attrs[BLOCK]));
        }
      }
      assert Absorb(before, dir, rec) == Ok(target);
    }
    assert records[..|records|] == records;
    if target.origins.None? {
      return Err(NoOrigins(target.relPath));
    }
    if target.destinations.None? {
      return Err(NoDestinations(target.relPath));
    }
    r := Ok(target);
  }

  /** The loop over one record more is one more pass. */
  lemma ResolveStep(t: ExecutionTarget, dir: Path, records: seq<Record>, i: nat)
    requires i < |records| && ResolveFrom(t, dir, records[..i]).Ok?
    ensures ResolveFrom(t, dir, records[..i + 1]) == Absorb(ResolveFrom(t, dir, records[..i]).value, dir, records[i])
  {
    assert records[..i + 1][..i] == records[..i];
  }

  /** Once the loop has raised, the exception is what the whole loop raises. */
  lemma {:induction false} PrefixErrorPersists(t: ExecutionTarget, dir: Path, records: seq<Record>, n: nat)
    requires n <= |records| && ResolveFrom(t, dir, records[..n]).Err?
    ensures ResolveFrom(t, dir, records) == ResolveFrom(t, dir, records[..n])
    ensures ResolveFrom(t, dir, records[..|records|]) == ResolveFrom(t, dir, records[..n])
    decreases |records| - n
  {
    if n < |records| {
      assert records[..n + 1][..n] == records[..n];
      PrefixErrorPersists(t, dir, records, n + 1);
    } else {
      assert records[..n] == records;
    }
  }

  /** The loop raises exactly when an applicable record has params that are not a mapping. */
  lemma {:induction false} ResolveFailsIff(t: ExecutionTarget, dir: Path, records: seq<Record>)
    ensures ResolveFrom(t, dir, records).Err? <==>
      exists i :: 0 <= i < |records| && Applies(records[i], dir) && PARAMS in records[i].attrs && !records[i].attrs[PARAMS].Mapping?
  {
    if records != [] {
      var init := records[..|records| - 1];
      ResolveFailsIff(t, dir, init);
      if exists i :: 0 <= i < |init| && Applies(init[i], dir) && PARAMS in init[i].attrs && !init[i].attrs[PARAMS].Mapping? {
        var i :| 0 <= i < |init| && Applies(init[i], dir) && PARAMS in init[i].attrs && !init[i].attrs[PARAMS].Mapping?;
        assert records[i] == init[i];
      }
      forall i | 0 <= i < |records| - 1
        ensures records[i] == init[i]
      {
      }
    }
  }

  // --------------------------------------------- most specific folder wins

  /** The keys whose first setting wins, and the setter each goes through. */
  predicate IsSlot(key: string) {
    key == ORIGINS || key == DESTINATIONS || key == BLOCK
  }

  function SlotValue(key: string, v: Value): Option<Value> {
    if key == BLOCK then OptionOf(v) else Listify(v)
  }

  function Slot(t: ExecutionTarget, key: string): Option<Value>
    requires IsSlot(key)
  {
    if key == ORIGINS then t.origins else if key == DESTINATIONS then t.destinations else t.block
  }

  /** Record `i` applies to `dir` and gives `key` a value that is not null. */
  predicate Defines(dir: Path, records: seq<Record>, key: string, i: int)
    requires IsSlot(key)
  {
    0 <= i < |records| && Applies(records[i], dir) && key in records[i].attrs && SlotValue(key, records[i].attrs[key]).Some?
  }

  /** The first record at or after `from` that defines `key` for `dir`. */
  function FirstDefiningFrom(dir: Path, records: seq<Record>, key: string, from: nat): (r: Option<nat>)
    requires IsSlot(key)
    ensures r.None? ==> forall j :: from <= j < |records| ==> !Defines(dir, records, key, j)
    ensures r.Some? ==> (from <= r.value && Defines(dir, records, key, r.value) &&
      forall j :: from <= j < r.value ==> !Defines(dir, records, key, j))
    decreases |records| - from
  {
    if from >= |records| then None
    else if Defines(dir, records, key, from) then Some(from)
    else FirstDefiningFrom(dir, records, key, from + 1)
  }

  /** The first record that defines `key` for `dir`. */
  function FirstDefining(dir: Path, records: seq<Record>, key: string): (r: Option<nat>)
    requires IsSlot(key)
    ensures r.None? ==> forall j :: 0 <= j < |records| ==> !Defines(dir, records, key, j)
    ensures r.Some? ==> Defines(dir, records, key, r.value) && forall j :: 0 <= j < r.value ==> !Defines(dir, records, key, j)
  {
    FirstDefiningFrom(dir, records, key, 0)
  }

  /**
   * The resolved origins, destinations and blocking flag are those of the
   * first record that defines them, unless the new target already had one.
   */
  lemma {:induction false} FirstDefinitionWins(t: ExecutionTarget, dir: Path, records: seq<Record>, key: string)
    requires IsSlot(key) && ResolveFrom(t, dir, records).Ok?
    ensures Slot(ResolveFrom(t, dir, records).value, key) ==
      if Slot(t, key).Some? then Slot(t, key)
      else match FirstDefining(dir, records, key)
        case None => None
        case Some(i) => SlotValue(key, records[i].attrs[key])
  {
    if records != [] {
      var init := records[..|records| - 1];
      var last := records[|records| - 1];
      assert ResolveFrom(t, dir, init).Ok?;
      FirstDefinitionWins(t, dir, init, key);
      FirstDefiningSnoc(dir, records, key);
    }
  }

  /** Adding a record at the end only matters when no earlier record defines the key. */
  lemma FirstDefiningSnoc(dir: Path, records: seq<Record>, key: string)
    requires IsSlot(key) && records != []
    ensures FirstDefining(dir, records, key) ==
      if FirstDefining(dir, records[..|records| - 1], key).Some? then FirstDefining(dir, records[..|records| - 1], key)
      else if Defines(dir, records, key, |records| - 1) then Some(|records| - 1)
      else None
  {
    var init := records[..|records| - 1];
    forall j | 0 <= j < |init|
      ensures Defines(dir, init, key, j) == Defines(dir, records, key, j)
    {
      assert init[j] == records[j];
    }
    var fi := FirstDefining(dir, init, key);
    if fi.Some? {
      FirstDefiningIs(dir, records, key, fi.value);
    } else if Defines(dir, records, key, |records| - 1) {
      FirstDefiningIs(dir, records, key, |records| - 1);
    }
  }

  /** The first defining record is the one that defines and has none defining before it. */
  lemma FirstDefiningIs(dir: Path, records: seq<Record>, key: string, i: int)
    requires IsSlot(key) && Defines(dir, records, key, i)
    requires forall j :: 0 <= j < i ==> !Defines(dir, records, key, j)
    ensures FirstDefining(dir, records, key) == Some(i)
  {
  }

  /**
   * With the records ordered from fine to coarse, the record that wins is
   * the deepest folder that defines the setting: every other folder that
   * defines it is one of its ancestors.
   */
  lemma DeepestDefinitionWins(dir: Path, records: seq<Record>, key: string, j: int)
    requires IsSlot(key) && Descending(records)
    requires Defines(dir, records, key, j)
    ensures FirstDefining(dir, records, key).Some?
    ensures Below(records[FirstDefining(dir, records, key).value].path, records[j].path)
  {
    var i := FirstDefining(dir, records, key).value;
    var pi, pj := records[i].path, records[j].path;
    if |pj| > |pi| {
      assert pj[..|pi|] == dir[..|pj|][..|pi|] == pi;
      DescendantFirst(records, i, j);
    } else {
      assert pi[..|pj|] == dir[..|pi|][..|pj|] == pj;
    }
  }

  /** Folders named `_LoadResources` always block until their execution completes. */
  lemma LoadResourcesBlocks(dir: Path, kind: string, records: seq<Record>)
    requires ResolveFrom(NewExecutionTarget(dir, kind), dir, records).Ok?
    ensures ResolveFrom(NewExecutionTarget(dir, kind), dir, records).value.isLoadscriptFolder <==> DirName(dir) == LOAD_RESOURCES
    ensures DirName(dir) == LOAD_RESOURCES ==> ResolveFrom(NewExecutionTarget(dir, kind), dir, records).value.block == Some(Bool(true))
  {
    FirstDefinitionWins(NewExecutionTarget(dir, kind), dir, records, BLOCK);
    IsLoadscriptKept(NewExecutionTarget(dir, kind), dir, records);
  }

  lemma {:induction false} IsLoadscriptKept(t: ExecutionTarget, dir: Path, records: seq<Record>)
    requires ResolveFrom(t, dir, records).Ok?
    ensures ResolveFrom(t, dir, records).value.isLoadscriptFolder == t.isLoadscriptFolder
    ensures ResolveFrom(t, dir, records).value.relPath == t.relPath
  {
    if records != [] {
      IsLoadscriptKept(t, dir, records[..|records| - 1]);
    }
  }

  // ------------------------------------------------------- merged params

  /** Record `i` applies to `dir` and its params set `k`. */
  predicate ParamAt(dir: Path, records: seq<Record>, i: int, k: string) {
    0 <= i < |records| && Applies(records[i], dir) && PARAMS in records[i].attrs &&
    records[i].attrs[PARAMS].Mapping? && k in ToMap(records[i].attrs[PARAMS].entries)
  }

  /** Record `i` is the last applicable record whose params set `k`. */
  predicate LastParamAt(dir: Path, records: seq<Record>, i: int, k: string) {
    ParamAt(dir, records, i, k) && forall j :: i < j < |records| ==> !ParamAt(dir, records, j, k)
  }

  /** What one pass of the loop does to the params. */
  lemma AbsorbParams(t: ExecutionTarget, dir: Path, rec: Record)
    requires Absorb(t, dir, rec).Ok?
    ensures Absorb(t, dir, rec).value.params ==
      if Applies(rec, dir) && PARAMS in rec.attrs then t.params + ToMap(rec.attrs[PARAMS].entries) else t.params
  {
  }

  /**
   * The merged params hold exactly the keys set by the target or by some
   * applicable record, each with the value of the last record setting it.
   */
  lemma {:induction false} ParamsMerged(t: ExecutionTarget, dir: Path, records: seq<Record>, k: string)
    requires ResolveFrom(t, dir, records).Ok?
    ensures k in ResolveFrom(t, dir, records).value.params <==> k in t.params || exists i :: ParamAt(dir, records, i, k)
    ensures forall i :: LastParamAt(dir, records, i, k) ==>
      ResolveFrom(t, dir, records).value.params[k] == ToMap(records[i].attrs[PARAMS].entries)[k]
    ensures (forall i :: !ParamAt(dir, records, i, k)) && k in t.params ==>
      ResolveFrom(t, dir, records).value.params[k] == t.params[k]
  {
    if records != [] {
      var n := |records| - 1;
      var init := records[..n];
      var last := records[n];
      assert ResolveFrom(t, dir, init).Ok?;
      var before := ResolveFrom(t, dir, init).value;
      var after := ResolveFrom(t, dir, records).value;
      assert Absorb(before, dir, last) == Ok(after);
      AbsorbParams(before, dir, last);
      ParamsMerged(t, dir, init, k);
      forall j | 0 <= j < n
        ensures ParamAt(dir, init, j, k) == ParamAt(dir, records, j, k)
      {
        assert init[j] == records[j];
      }
      if ParamAt(dir, records, n, k) {
        assert k in after.params && after.params[k] == ToMap(last.attrs[PARAMS].entries)[k];
        forall i | LastParamAt(dir, records, i, k)
          ensures i == n
        {
        }
      } else {
        assert k in after.params <==> k in before.params;
        assert k in after.params ==> after.params[k] == before.params[k];
        forall i | LastParamAt(dir, records, i, k)
          ensures LastParamAt(dir, init, i, k)
        {
        }
        if exists i :: ParamAt(dir, records, i, k) {
          var i :| ParamAt(dir, records, i, k);
          assert 0 <= i < n;
          assert ParamAt(dir, init, i, k) == ParamAt(dir, records, i, k);
        }
      }
    }
  }

  // ------------------------------------------------------------ uploads

  /** An `UploadTarget`; `None` stands for Python's `None`. */
  datatype UploadTarget = UploadTarget(path: Path, relPath: string, kind: string, access: Option<Value>, validator: Option<Value>)

  /** Both settings an upload needs are there: `target.hasAccess() and target.validator`. */
  predicate Complete(u: UploadTarget) {
    u.access.Some? && u.validator.Some? && Truthy(u.validator.value)
  }

  /** One pass of the loop of `getUploadTarget`, without its early return. */
  function AbsorbUpload(u: UploadTarget, dir: Path, rec: Record): (r: UploadTarget)
    ensures u.access.Some? ==> r.access == u.access
    ensures Complete(u) ==> r == u
    ensures r.path == u.path && r.relPath == u.relPath && r.kind == u.kind
  {
    if !Applies(rec, dir) then u
    else
      var a := rec.attrs;
      var u1 := if u.access.None? && ACCESS in a then u.(access := Listify(a[ACCESS])) else u;
      var falsy := u1.validator.None? || !Truthy(u1.validator.value);
      if falsy && VALIDATOR in a then u1.(validator := OptionOf(a[VALIDATOR])) else u1
  }

  function UploadFold(u: UploadTarget, dir: Path, records: seq<Record>): UploadTarget {
    if records == [] then u else AbsorbUpload(UploadFold(u, dir, records[..|records| - 1]), dir, records[|records| - 1])
  }

  /** A complete upload target is left alone by every further record. */
  lemma {:induction false} CompleteIsStable(u: UploadTarget, dir: Path, records: seq<Record>)
    requires Complete(u)
    ensures UploadFold(u, dir, records) == u
  {
    if records != [] {
      CompleteIsStable(u, dir, records[..|records| - 1]);
    }
  }

  lemma {:induction false} UploadFoldSplit(u: UploadTarget, dir: Path, records: seq<Record>, n: nat)
    requires n <= |records|
    ensures UploadFold(u, dir, records) == UploadFold(UploadFold(u, dir, records[..n]), dir, records[n..])
    decreases |records|
  {
    if n < |records| {
      var init := records[..|records| - 1];
      UploadFoldSplit(u, dir, init, n);
      assert init[..n] == records[..n];
      assert records[n..][..|records[n..]| - 1] == init[n..];
    } else {
      assert records[..n] == records;
    }
  }

  lemma UploadStep(u: UploadTarget, dir: Path, records: seq<Record>, i: nat)
    requires i < |records|
    ensures UploadFold(u, dir, records[..i + 1]) == AbsorbUpload(UploadFold(u, dir, records[..i]), dir, records[i])
  {
    assert records[..i + 1][..i] == records[..i];
  }

  /** Returning as soon as the target is complete gives what running the whole loop would. */
  lemma EarlyReturnAgrees(u: UploadTarget, dir: Path, records: seq<Record>, n: nat)
    requires n <= |records| && Complete(UploadFold(u, dir, records[..n]))
    ensures UploadFold(u, dir, records) == UploadFold(u, dir, records[..n])
  {
    UploadFoldSplit(u, dir, records, n);
    CompleteIsStable(UploadFold(u, dir, records[..n]), dir, records[n..]);
  }

  /** `getUploadTarget` as written: `Ok(None)` is the path that falls off the end of the method. */
  function UploadTargetFor(known: Known, arg: string, kind: string): (r: Result<Option<UploadTarget>, TargetError>)
    ensures r.Ok? && r.value.Some? ==> Complete(r.value.value)
  {
    match Get(known.dirs, arg)
    case Err(e) => Err(e)
    case Ok(dir) =>
      var u0 := UploadTarget(dir, RelPathFor(dir, kind), kind, None, None);
      var u := UploadFold(u0, dir, RecordsFor(known, kind));
      if Complete(u) then Ok(Some(u))
      else if u.access.None? then Err(NoAccess(u.relPath))
      else if u.validator.None? then Err(NoValidator(u.relPath))
      else Ok(None)
  }

  /** `getUploadTarget`, returning as soon as both access and a validator are known. */
  method GetUploadTarget(known: Known, arg: string, kind: string) returns (r: Result<Option<UploadTarget>, TargetError>)
    ensures r == UploadTargetFor(known, arg, kind)
  {
    var got := Get(known.dirs, arg);
    if got.Err? {
      return Err(got.error);
    }
    var dir := got.value;
    var target := UploadTarget(dir, RelPathFor(dir, kind), kind, None, None);
    target := UploadLoop(target, dir, RecordsFor(known, kind));
    if Complete(target) {
      return Ok(Some(target));
    }
    if target.access.None? {
      return Err(NoAccess(target.relPath));
    }
    if target.validator.None? {
      return Err(NoValidator(target.relPath));
    }
    r := Ok(None);
  }

  /**
   * The loop of `getUploadTarget`, which stops at the first record after
   * which the target is complete; it ends with what running over all
   * records would give.
   */
  method UploadLoop(u0: UploadTarget, dir: Path, records: seq<Record>) returns (target: UploadTarget)
    requires u0.access.None?
    ensures target == UploadFold(u0, dir, records)
  {
    target := u0;
    for i := 0 to |records|
      invariant target == UploadFold(u0, dir, records[..i])
      invariant !Complete(target)
    {
      UploadStep(u0, dir, records, i);
      target := UploadPass(target, dir, records[i]);
      if Complete(target) {
        EarlyReturnAgrees(u0, dir, records, i + 1);
        return;
      }
    }
    assert records[..|records|] == records;
  }

  /** The body of the loop of `getUploadTarget`, before its early-return test. */
  method UploadPass(target: UploadTarget, dir: Path, rec: Record) returns (t: UploadTarget)
    ensures t == AbsorbUpload(target, dir, rec)
  {
    t := target;
    if Applies(rec, dir) {
      if t.access.None? && ACCESS in rec.attrs {
        t := t.(access := Listify(rec.attrs[ACCESS]));
      }
      if (t.validator.None? || !Truthy(t.validator.value)) && VALIDATOR in rec.attrs {
        t := t.(validator := OptionOf(rec.attrs[VALIDATOR]));
      }
    }
  }

  /**
   * `getUploadTarget` with the evident intent: a validator that is present
   * but empty or false is reported like a missing one.
   */
  function CheckedUploadTargetFor(known: Known, arg: string, kind: string): (r: Result<UploadTarget, TargetError>)
    ensures r.Ok? ==> Complete(r.value)
    ensures r.Err? <==> !(UploadTargetFor(known, arg, kind).Ok? && UploadTargetFor(known, arg, kind).value.Some?)
    ensures r.Ok? ==> UploadTargetFor(known, arg, kind) == Ok(Some(r.value))
  {
    match UploadTargetFor(known, arg, kind)
    case Err(e) => Err(e)
    case Ok(None) =>
      var dir := Get(known.dirs, arg).value;
      Err(NoValidator(RelPathFor(dir, kind)))
    case Ok(Some(u)) => Ok(u)
  }

  /**
   * A single settings record for the folder that gives access and a
   * validator that is present but falsy: the method as written returns
   * `None` instead of reporting the missing validator.
   */
  lemma FalsyValidatorFallsThrough(known: Known, arg: string, kind: string, dir: Path, rec: Record)
    requires Get(known.dirs, arg) == Ok(dir) && RecordsFor(known, kind) == [rec] && Applies(rec, dir)
    requires ACCESS in rec.attrs && Listify(rec.attrs[ACCESS]).Some?
    requires VALIDATOR in rec.attrs && OptionOf(rec.attrs[VALIDATOR]).Some? && !Truthy(rec.attrs[VALIDATOR])
    ensures UploadTargetFor(known, arg, kind) == Ok(None)
  {
    var u0 := UploadTarget(dir, RelPathFor(dir, kind), kind, None, None);
    var records := RecordsFor(known, kind);
    assert records[..0] == [];
    assert UploadFold(u0, dir, records) == AbsorbUpload(u0, dir, rec);
  }

  /** Number 1 is the first folder listed. */
  lemma GetOne(dirs: seq<Path>)
    requires |dirs| >= 1
    ensures Get(dirs, "1") == Ok(dirs[0])
  {
    ParseIntOfNatToString(1);
    assert NatToString(1) == "1";
  }

  /** A folder whose validator is an empty string. */
  lemma EmptyValidatorFallsThrough(known: Known)
    requires known == Known([["a"]], [Record([], map[ACCESS := Str("Nictiz"), VALIDATOR := Str("")])], [])
    ensures UploadTargetFor(known, "1", "dev") == Ok(None)
  {
    var rec := known.dev[0];
    GetOne(known.dirs);
    assert Applies(rec, ["a"]);
    FalsyValidatorFallsThrough(known, "1", "dev", known.dirs[0], rec);
  }
}
