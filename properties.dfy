/**
 * The Touchstone properties file (ts.py, `KnownTargets.loadProperties` and
 * `__walkProperties`): every nested mapping names a folder below `dev`, the
 * settings found at a folder are recorded under that folder, and the
 * folders are then ordered from the most specific to the most general.
 */
module Properties {
  import opened Wrappers
  import opened Yaml
  import opened Paths

  /** The settings recorded for one folder, by setting name. */
  type Attrs = map<string, Value>

  /** The recorded settings of every folder that has any. */
  type Props = map<Path, Attrs>

  /** One folder and its settings, as the ordered dictionary holds them. */
  datatype Record = Record(path: Path, attrs: Attrs)

  /** Keys that are settings whatever their value. */
  const SETTING_KEYS: seq<string> := ["params", "origins", "destinations", "block until complete"]

  /** A mapping entry that is recorded at the current folder rather than walked into. */
  predicate IsSetting(key: string, v: Value) {
    key in SETTING_KEYS || v.Str? || v.List?
  }

  /** `properties[p][key] = v`, creating the folder's dictionary when needed. */
  function Put(props: Props, p: Path, key: string, v: Value): (r: Props)
    ensures r.Keys == props.Keys + {p}
    ensures r[p] == (if p in props then props[p] else map[])[key := v]
    ensures forall q :: q in props && q != p ==> r[q] == props[q]
  {
    props[p := (if p in props then props[p] else map[])[key := v]]
  }

  /** What walking a mapping at folder `cur` makes of `props`: its dict items, in iteration order. */
  function Walk(props: Props, cur: Path, entries: seq<Entry>): Props
    decreases entries, 1
  {
    WalkItems(props, cur, entries, |DictItems(entries)|)
  }

  /** The walk over the first `n` dict items of a mapping. */
  function WalkItems(props: Props, cur: Path, entries: seq<Entry>, n: nat): Props
    requires n <= |DictItems(entries)|
    decreases entries, 0, n
  {
    if n == 0 then props
    else
      var before := WalkItems(props, cur, entries, n - 1);
      var e := DictItems(entries)[n - 1];
      if IsSetting(e.key, e.value) then Put(before, cur, e.key, e.value)
      else if e.value.Mapping? then
        DictItemAt(entries, n - 1);
        Walk(before, PathJoin(cur, e.key), e.value.entries)
      else before
  }

  /** `__walkProperties`: records the settings of the mapping and walks its nested mappings. */
  method WalkProperties(props: Props, cur: Path, entries: seq<Entry>) returns (r: Props)
    ensures r == Walk(props, cur, entries)
    decreases entries, 1
  {
    var n := |DictItems(entries)|;
    r := props;
    var i := 0;
    while i < n
      invariant i <= n && r == WalkItems(props, cur, entries, i)
    {
      r := WalkItem(props, cur, entries, i, r);
      i := i + 1;
    }
  }

  /** One pass of the loop of `__walkProperties`: dict item `i`. */
  method WalkItem(props: Props, cur: Path, entries: seq<Entry>, i: nat, r: Props) returns (r': Props)
    requires i < |DictItems(entries)| && r == WalkItems(props, cur, entries, i)
    ensures r' == WalkItems(props, cur, entries, i + 1)
    decreases entries, 0
  {
    var e := DictItems(entries)[i];
    r' := r;
    if IsSetting(e.key, e.value) {
      var attrs := if cur in r then r[cur] else map[];
      r' := r[cur := attrs[e.key := e.value]];
    } else if e.value.Mapping? {
      DictItemAt(entries, i);
      r' := WalkProperties(r, PathJoin(cur, e.key), e.value.entries);
    }
  }

  /** `q` is `p` or lies below it. */
  predicate Below(q: Path, p: Path) {
    |p| <= |q| && q[..|p|] == p
  }

  /** `b` keeps every folder and key of `a`, and differs from it only at or below `cur`. */
  ghost predicate Grows(a: Props, b: Props, cur: Path) {
    (forall q :: q in a ==> q in b && a[q].Keys <= b[q].Keys) &&
    (forall q :: !Below(q, cur) ==> (q in b <==> q in a) && (q in a ==> b[q] == a[q]))
  }

  /** Recording a setting at `cur` only adds, and only at `cur`. */
  lemma PutGrows(a: Props, cur: Path, key: string, v: Value)
    ensures Grows(a, Put(a, cur, key, v), cur)
  {
  }

  lemma GrowsTrans(a: Props, b: Props, c: Props, cur: Path)
    requires Grows(a, b, cur) && Grows(b, c, cur)
    ensures Grows(a, c, cur)
  {
  }

  lemma GrowsWiden(a: Props, b: Props, inner: Path, cur: Path)
    requires Grows(a, b, inner) && Below(inner, cur)
    ensures Grows(a, b, cur)
  {
    assert forall q :: Below(q, inner) ==> Below(q, cur);
  }

  /** The walk only touches folders at or below the one it starts at, and never drops a setting. */
  lemma {:induction false} WalkFrame(props: Props, cur: Path, entries: seq<Entry>)
    ensures forall q :: q in props ==> q in Walk(props, cur, entries) && props[q].Keys <= Walk(props, cur, entries)[q].Keys
    ensures forall q :: !Below(q, cur) ==>
      (q in Walk(props, cur, entries) <==> q in props) &&
      (q in props ==> Walk(props, cur, entries)[q] == props[q])
  {
    WalkGrows(props, cur, entries);
  }

  lemma {:induction false} WalkGrows(props: Props, cur: Path, entries: seq<Entry>)
    ensures Grows(props, Walk(props, cur, entries), cur)
    decreases entries, 1
  {
    WalkItemsFrame(props, cur, entries, |DictItems(entries)|);
  }

  lemma {:induction false} WalkItemsFrame(props: Props, cur: Path, entries: seq<Entry>, n: nat)
    requires n <= |DictItems(entries)|
    ensures Grows(props, WalkItems(props, cur, entries, n), cur)
    decreases entries, 0, n, 1
  {
    if n > 0 {
      WalkItemsFrame(props, cur, entries, n - 1);
      FrameStep(props, cur, entries, n);
      GrowsTrans(props, WalkItems(props, cur, entries, n - 1), WalkItems(props, cur, entries, n), cur);
    } else {
      assert WalkItems(props, cur, entries, 0) == props;
    }
  }

  /** One more dict item only adds, and only at or below the current folder. */
  lemma FrameStep(props: Props, cur: Path, entries: seq<Entry>, n: nat)
    requires 0 < n <= |DictItems(entries)|
    ensures Grows(WalkItems(props, cur, entries, n - 1), WalkItems(props, cur, entries, n), cur)
    decreases entries, 0, n, 0
  {
    var e := DictItems(entries)[n - 1];
    var before := WalkItems(props, cur, entries, n - 1);
    var after := WalkItems(props, cur, entries, n);
    if IsSetting(e.key, e.value) {
      var x := Put(before, cur, e.key, e.value);
      assert after == x;
      PutGrows(before, cur, e.key, e.value);
    } else if e.value.Mapping? {
      DictItemAt(entries, n - 1);
      var next := PathJoin(cur, e.key);
      var x := Walk(before, next, e.value.entries);
      assert after == x;
      WalkGrows(before, next, e.value.entries);
      GrowsWiden(before, x, next, cur);
    } else {
      assert after == before;
    }
  }

  /**
   * A setting of the mapping is recorded at the mapping's folder with the
   * value `obj[key]` reads, when no later item names the same folder again.
   */
  lemma {:induction false} WalkRecordsSetting(props: Props, cur: Path, entries: seq<Entry>, i: nat)
    requires i < |DictItems(entries)| && IsSetting(DictItems(entries)[i].key, DictItems(entries)[i].value)
    requires forall j :: i < j < |DictItems(entries)| ==> Components(DictItems(entries)[j].key) != []
    ensures cur in Walk(props, cur, entries)
    ensures DictItems(entries)[i].key in Walk(props, cur, entries)[cur]
    ensures Lookup(entries, DictItems(entries)[i].key) == Some(Walk(props, cur, entries)[cur][DictItems(entries)[i].key])
  {
    DictItemAt(entries, i);
    WalkItemsRecordsSetting(props, cur, entries, i, |DictItems(entries)|);
  }

  lemma {:induction false} WalkItemsRecordsSetting(props: Props, cur: Path, entries: seq<Entry>, i: nat, n: nat)
    requires i < n <= |DictItems(entries)| && IsSetting(DictItems(entries)[i].key, DictItems(entries)[i].value)
    requires forall j :: i < j < n ==> Components(DictItems(entries)[j].key) != []
    ensures cur in WalkItems(props, cur, entries, n)
    ensures DictItems(entries)[i].key in WalkItems(props, cur, entries, n)[cur]
    ensures WalkItems(props, cur, entries, n)[cur][DictItems(entries)[i].key] == DictItems(entries)[i].value
    decreases n
  {
    var items := DictItems(entries);
    var key := items[i].key;
    if i == n - 1 {
      assert WalkItems(props, cur, entries, n) == Put(WalkItems(props, cur, entries, n - 1), cur, key, items[i].value);
    } else {
      WalkItemsRecordsSetting(props, cur, entries, i, n - 1);
      DictItemsDistinct(entries, i, n - 1);
      StepKeeps(props, cur, entries, n, key);
    }
  }

  /** One more dict item, with another key and not naming the current folder again, keeps the setting `key` at `cur`. */
  lemma StepKeeps(props: Props, cur: Path, entries: seq<Entry>, n: nat, key: string)
    requires 0 < n <= |DictItems(entries)| && DictItems(entries)[n - 1].key != key
    requires Components(DictItems(entries)[n - 1].key) != []
    requires cur in WalkItems(props, cur, entries, n - 1) && key in WalkItems(props, cur, entries, n - 1)[cur]
    ensures cur in WalkItems(props, cur, entries, n) && key in WalkItems(props, cur, entries, n)[cur]
    ensures WalkItems(props, cur, entries, n)[cur][key] == WalkItems(props, cur, entries, n - 1)[cur][key]
  {
    var e := DictItems(entries)[n - 1];
    var before := WalkItems(props, cur, entries, n - 1);
    if !IsSetting(e.key, e.value) && e.value.Mapping? {
      DictItemAt(entries, n - 1);
      var next := PathJoin(cur, e.key);
      WalkFrame(before, next, e.value.entries);
      assert !Below(cur, next) by {
        assert |next| > |cur|;
      }
    }
  }

  /**
   * Setting `k` with value `v` at folder `q` comes from the mapping at
   * `cur`: some dict item on the way down is a setting named `k` with
   * value `v`, at the end of a chain of nested mappings leading to `q`.
   */
  predicate SetBy(cur: Path, entries: seq<Entry>, q: Path, k: string, v: Value)
    decreases entries, 1
  {
    exists i :: 0 <= i < |DictItems(entries)| && ItemSetBy(cur, entries, i, q, k, v)
  }

  /** Dict item `i` of the mapping at `cur` is that setting, or a nested mapping that leads to it. */
  predicate ItemSetBy(cur: Path, entries: seq<Entry>, i: int, q: Path, k: string, v: Value)
    decreases entries, 0
  {
    0 <= i < |DictItems(entries)| &&
    var e := DictItems(entries)[i];
    if IsSetting(e.key, e.value) then q == cur && k == e.key && v == e.value
    else e.value.Mapping? && (DictItemAt(entries, i); SetBy(PathJoin(cur, e.key), e.value.entries, q, k, v))
  }

  /** Everything the walk records was there before or is set by the mapping. */
  lemma {:induction false} WalkOrigin(props: Props, cur: Path, entries: seq<Entry>)
    ensures forall q, k :: q in Walk(props, cur, entries) && k in Walk(props, cur, entries)[q] ==>
      (q in props && k in props[q] && Walk(props, cur, entries)[q][k] == props[q][k]) ||
      SetBy(cur, entries, q, k, Walk(props, cur, entries)[q][k])
    decreases entries, 1
  {
    WalkItemsOrigin(props, cur, entries, |DictItems(entries)|);
  }

  /** Every setting in `w` was in `props` or is set by one of the first `n` dict items. */
  predicate FromItems(props: Props, cur: Path, entries: seq<Entry>, n: nat, w: Props) {
    forall q, k :: q in w && k in w[q] ==>
      (q in props && k in props[q] && w[q][k] == props[q][k]) ||
      exists i :: 0 <= i < n && ItemSetBy(cur, entries, i, q, k, w[q][k])
  }

  lemma {:induction false} WalkItemsOrigin(props: Props, cur: Path, entries: seq<Entry>, n: nat)
    requires n <= |DictItems(entries)|
    ensures FromItems(props, cur, entries, n, WalkItems(props, cur, entries, n))
    decreases entries, 0, n, 1
  {
    if n > 0 {
      var before := WalkItems(props, cur, entries, n - 1);
      var after := WalkItems(props, cur, entries, n);
      WalkItemsOrigin(props, cur, entries, n - 1);
      forall q, k | q in after && k in after[q]
        ensures (q in props && k in props[q] && after[q][k] == props[q][k]) ||
          exists i :: 0 <= i < n && ItemSetBy(cur, entries, i, q, k, after[q][k])
      {
        var v := after[q][k];
        OriginStep(props, cur, entries, n, q, k);
        if ItemSetBy(cur, entries, n - 1, q, k, v) {
          assert 0 <= n - 1 < n;
          assert exists i :: 0 <= i < n && ItemSetBy(cur, entries, i, q, k, v);
        } else {
          assert q in before && k in before[q] && before[q][k] == v;
          if !(q in props && k in props[q] && v == props[q][k]) {
            var i :| 0 <= i < n - 1 && ItemSetBy(cur, entries, i, q, k, v);
            assert 0 <= i < n;
            assert exists i :: 0 <= i < n && ItemSetBy(cur, entries, i, q, k, v);
          }
        }
      }
    } else {
      assert WalkItems(props, cur, entries, 0) == props;
    }
  }

  /** One setting after `n` items: item `n - 1` sets it, or it was already there after `n - 1`. */
  lemma OriginStep(props: Props, cur: Path, entries: seq<Entry>, n: nat, q: Path, k: string)
    requires 0 < n <= |DictItems(entries)|
    requires q in WalkItems(props, cur, entries, n) && k in WalkItems(props, cur, entries, n)[q]
    ensures var v := WalkItems(props, cur, entries, n)[q][k];
      ItemSetBy(cur, entries, n - 1, q, k, v) ||
      var before := WalkItems(props, cur, entries, n - 1);
      q in before && k in before[q] && before[q][k] == v
    decreases entries, 0, n, 0
  {
    var e := DictItems(entries)[n - 1];
    var before := WalkItems(props, cur, entries, n - 1);
    var after := WalkItems(props, cur, entries, n);
    var v := after[q][k];
    var next := PathJoin(cur, e.key);
    if IsSetting(e.key, e.value) {
      assert after == Put(before, cur, e.key, e.value);
      if q == cur && k == e.key {
        assert ItemSetBy(cur, entries, n - 1, q, k, v);
      } else if q == cur {
        assert cur in before;
      }
    } else if e.value.Mapping? {
      DictItemAt(entries, n - 1);
      assert after == Walk(before, next, e.value.entries);
      WalkOrigin(before, next, e.value.entries);
      if SetBy(next, e.value.entries, q, k, v) {
        assert ItemSetBy(cur, entries, n - 1, q, k, v);
      }
    } else {
      assert after == before;
    }
  }

  /**
   * Starting from nothing, only settings are recorded: every recorded
   * value is a string, a list or a value under a setting key, found by
   * walking nested mappings down to its folder. Other values are dropped.
   */
  lemma WalkRecordsOnlySettings(cur: Path, entries: seq<Entry>, q: Path, k: string)
    requires q in Walk(map[], cur, entries) && k in Walk(map[], cur, entries)[q]
    ensures SetBy(cur, entries, q, k, Walk(map[], cur, entries)[q][k])
  {
    WalkOrigin(map[], cur, entries);
  }

  /** A setting found by walking down is a string, a list or a value under a setting key. */
  lemma {:induction false} SetByIsSetting(cur: Path, entries: seq<Entry>, q: Path, k: string, v: Value)
    requires SetBy(cur, entries, q, k, v)
    ensures IsSetting(k, v) && Below(q, cur)
    decreases entries
  {
    var i :| 0 <= i < |DictItems(entries)| && ItemSetBy(cur, entries, i, q, k, v);
    var e := DictItems(entries)[i];
    if !IsSetting(e.key, e.value) {
      DictItemAt(entries, i);
      var next := PathJoin(cur, e.key);
      SetByIsSetting(next, e.value.entries, q, k, v);
    }
  }

  /** `records` is strictly ordered from the last folder in `pathlib` order to the first. */
  predicate Descending(records: seq<Record>) {
    forall i, j :: 0 <= i < j < |records| ==> PathLess(records[j].path, records[i].path)
  }

  /** `records` holds every folder of `props` once, with its settings, in descending order. */
  predicate SortedFrom(records: seq<Record>, props: Props) {
    Descending(records) &&
    (forall k :: 0 <= k < |records| ==> records[k].path in props && records[k].attrs == props[records[k].path]) &&
    (forall p :: p in props ==> exists k :: 0 <= k < |records| && records[k].path == p)
  }

  /** A finite non-empty set of folders has a last one in `pathlib` order. */
  lemma {:induction false} MaxExists(s: set<Path>)
    requires s != {}
    ensures exists m :: m in s && forall q :: q in s && q != m ==> PathLess(q, m)
    decreases s
  {
    var x :| x in s;
    if s != {x} {
      MaxExists(s - {x});
      var m :| m in s - {x} && forall q :: q in s - {x} && q != m ==> PathLess(q, m);
      if PathLess(x, m) {
        assert forall q :: q in s && q != m ==> PathLess(q, m);
      } else {
        PathLessTotal(x, m);
        forall q | q in s && q != x
          ensures PathLess(q, x)
        {
          if q != m {
            PathLessTransitive(q, m, x);
          }
        }
      }
    }
  }

  /** Every folder in `records` comes before `p` in `pathlib` order. */
  predicate AllBefore(records: seq<Record>, p: Path) {
    forall k :: 0 <= k < |records| ==> PathLess(p, records[k].path)
  }

  /** Some record is for folder `p`. */
  predicate Holds(records: seq<Record>, p: Path) {
    exists k :: 0 <= k < |records| && records[k].path == p
  }

  lemma DescendingSnoc(records: seq<Record>, r: Record)
    requires Descending(records) && AllBefore(records, r.path)
    ensures Descending(records + [r])
  {
  }

  lemma AllBeforeSnoc(records: seq<Record>, rest: set<Path>, m: Path, attrs: Attrs)
    requires forall p :: p in rest ==> AllBefore(records, p)
    requires forall q :: q in rest && q != m ==> PathLess(q, m)
    ensures forall p :: p in rest - {m} ==> AllBefore(records + [Record(m, attrs)], p)
  {
  }

  lemma HoldsSnoc(records: seq<Record>, r: Record, p: Path)
    requires Holds(records, p) || r.path == p
    ensures Holds(records + [r], p)
  {
    if r.path == p {
      assert (records + [r])[|records|].path == p;
    } else {
      var k :| 0 <= k < |records| && records[k].path == p;
      assert (records + [r])[k].path == p;
    }
  }

  /** `sorted(keys, reverse=True)` followed by copying into an ordered dictionary. */
  method SortDescending(props: Props) returns (records: seq<Record>)
    ensures SortedFrom(records, props)
  {
    records := [];
    var rest := props.Keys;
    while rest != {}
      invariant rest <= props.Keys
      invariant Descending(records)
      invariant forall k :: 0 <= k < |records| ==> records[k].path in props && records[k].path !in rest && records[k].attrs == props[records[k].path]
      invariant forall p :: p in props && p !in rest ==> Holds(records, p)
      invariant forall p :: p in rest ==> AllBefore(records, p)
      decreases rest
    {
      MaxExists(rest);
      var m :| m in rest && forall q :: q in rest && q != m ==> PathLess(q, m);
      var r := Record(m, props[m]);
      DescendingSnoc(records, r);
      AllBeforeSnoc(records, rest, m, props[m]);
      forall p | p in props && p !in rest - {m} {
        HoldsSnoc(records, r, p);
      }
      records := records + [r];
      rest := rest - {m};
    }
  }

  /** In the ordered folders, a folder comes before every one of its ancestors. */
  lemma DescendantFirst(records: seq<Record>, i: int, j: int)
    requires Descending(records) && 0 <= i < |records| && 0 <= j < |records|
    requires |records[i].path| < |records[j].path| && Below(records[j].path, records[i].path)
    ensures j < i
  {
    AncestorLess(records[i].path, records[j].path);
    if i < j {
      PathLessAsymmetric(records[i].path, records[j].path);
    }
  }

  /** Why loading the properties file raises. */
  datatype LoadError = KeyError(key: string) | TypeError

  /** `raw[name]`, as the entries the walk iterates over. */
  function Section(raw: Value, name: string): (r: Result<seq<Entry>, LoadError>)
    ensures r == Err(KeyError(name)) <==> raw.Mapping? && name !in Keys(raw.entries)
    ensures r.Ok? ==> raw.Mapping? && name in Keys(raw.entries)
  {
    if !raw.Mapping? then Err(TypeError)
    else match Lookup(raw.entries, name)
      case None => Err(KeyError(name))
      case Some(v) =>
        if v.Mapping? then Ok(v.entries)
        else if v == Str("") || v == List([]) then Ok([])
        else Err(TypeError)
  }

  /** `loadProperties`: the dev and production settings, each ordered from fine to coarse. */
  method LoadProperties(raw: Value) returns (r: Result<(seq<Record>, seq<Record>), LoadError>)
    ensures r.Ok? <==> Section(raw, "dev").Ok? && Section(raw, "production").Ok?
    ensures r.Ok? ==>
      SortedFrom(r.value.0, Walk(map[], [], Section(raw, "dev").value)) &&
      SortedFrom(r.value.1, Walk(map[], [], Section(raw, "production").value))
  {
    var dev := Section(raw, "dev");
    if dev.Err? {
      return Err(dev.error);
    }
    var production := Section(raw, "production");
    if production.Err? {
      return Err(production.error);
    }
    var devProps := WalkProperties(map[], [], dev.value);
    var prodProps := WalkProperties(map[], [], production.value);
    var devRecords := SortDescending(devProps);
    var prodRecords := SortDescending(prodProps);
    r := Ok((devRecords, prodRecords));
  }
}
