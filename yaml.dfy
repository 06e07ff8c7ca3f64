/**
 * The values `yaml.safe_load` produces from the Touchstone properties file:
 * null, booleans, integers, strings, lists and mappings whose entries keep
 * the order in which they appear in the file.
 */
module Yaml {
  import opened Wrappers

  datatype Entry = Entry(key: string, value: Value)

  datatype Value =
    | Null
    | Bool(b: bool)
    | Int(i: int)
    | Str(s: string)
    | List(items: seq<Value>)
    | Mapping(entries: seq<Entry>)

  /** Python's truth value of the loaded object. */
  predicate Truthy(v: Value) {
    match v
    case Null => false
    case Bool(b) => b
    case Int(i) => i != 0
    case Str(s) => s != ""
    case List(items) => items != []
    case Mapping(entries) => entries != []
  }

  /** The keys of a mapping, in file order. */
  function Keys(entries: seq<Entry>): (ks: seq<string>)
    ensures |ks| == |entries| && forall i :: 0 <= i < |entries| ==> ks[i] == entries[i].key
  {
    if entries == [] then [] else Keys(entries[..|entries| - 1]) + [entries[|entries| - 1].key]
  }

  /** `obj[key]` on a mapping: the value of the last entry with that key, as a dict built from the file keeps it. */
  function Lookup(entries: seq<Entry>, key: string): (r: Option<Value>)
    ensures r.None? <==> key !in Keys(entries)
    ensures r.Some? ==> Entry(key, r.value) in entries
  {
    if entries == [] then None
    else
      var last := entries[|entries| - 1];
      var earlier := entries[..|entries| - 1];
      assert entries == earlier + [last];
      if last.key == key then Some(last.value) else Lookup(earlier, key)
  }

  /** The mapping as a Python dict: a later entry overrides an earlier one with the same key. */
  function ToMap(entries: seq<Entry>): map<string, Value> {
    if entries == [] then map[]
    else ToMap(entries[..|entries| - 1])[entries[|entries| - 1].key := entries[|entries| - 1].value]
  }

  /** The dict has the keys of the mapping, each with the value `obj[key]` reads. */
  lemma {:induction false} ToMapLookup(entries: seq<Entry>, key: string)
    ensures key in ToMap(entries) <==> key in Keys(entries)
    ensures key in ToMap(entries) ==> Lookup(entries, key) == Some(ToMap(entries)[key])
  {
    if entries != [] {
      ToMapLookup(entries[..|entries| - 1], key);
    }
  }

  /** The keys of the dict a mapping loads as, in iteration order: each key once, where it first occurs. */
  function DictKeys(entries: seq<Entry>): seq<string> {
    if entries == [] then []
    else
      var init := entries[..|entries| - 1];
      var k := entries[|entries| - 1].key;
      DictKeys(init) + (if k in Keys(init) then [] else [k])
  }

  /** The dict has exactly the keys of the mapping, each once. */
  lemma {:induction false} DictKeysFacts(entries: seq<Entry>)
    ensures forall k :: k in DictKeys(entries) <==> k in Keys(entries)
    ensures forall i, j :: 0 <= i < j < |DictKeys(entries)| ==> DictKeys(entries)[i] != DictKeys(entries)[j]
  {
    if entries != [] {
      var init := entries[..|entries| - 1];
      DictKeysFacts(init);
      assert Keys(entries) == Keys(init) + [entries[|entries| - 1].key];
    }
  }

  /**
   * What `for key in obj` with `obj[key]` visits: each key once, at the
   * position of its first entry, with the value of its last entry.
   */
  function DictItems(entries: seq<Entry>): (items: seq<Entry>)
    ensures |items| == |DictKeys(entries)|
  {
    var ks := DictKeys(entries);
    DictKeysFacts(entries);
    seq(|ks|, i requires 0 <= i < |ks| => Entry(ks[i], Lookup(entries, ks[i]).value))
  }

  /** Item `i` is key `i` of the dict, with the value `obj[key]` reads, and is an entry of the mapping. */
  lemma DictItemAt(entries: seq<Entry>, i: nat)
    requires i < |DictItems(entries)|
    ensures DictItems(entries)[i].key == DictKeys(entries)[i]
    ensures Lookup(entries, DictItems(entries)[i].key) == Some(DictItems(entries)[i].value)
    ensures DictItems(entries)[i] in entries
  {
    DictKeysFacts(entries);
  }

  /** Two dict items have different keys. */
  lemma DictItemsDistinct(entries: seq<Entry>, i: nat, j: nat)
    requires i < j < |DictItems(entries)|
    ensures DictItems(entries)[i].key != DictItems(entries)[j].key
  {
    DictKeysFacts(entries);
    DictItemAt(entries, i);
    DictItemAt(entries, j);
  }

  /** Every key of the mapping is visited exactly once, with the value `obj[key]` reads. */
  lemma DictItemsVisitOnce(entries: seq<Entry>, key: string)
    ensures key in Keys(entries) <==> exists i :: 0 <= i < |DictItems(entries)| && DictItems(entries)[i].key == key
    ensures forall i, j :: 0 <= i < j < |DictItems(entries)| ==> DictItems(entries)[i].key != DictItems(entries)[j].key
  {
    DictKeysFacts(entries);
    var ks := DictKeys(entries);
    if key in Keys(entries) {
      var i :| 0 <= i < |ks| && ks[i] == key;
      assert DictItems(entries)[i].key == key;
    }
  }
}
