/**
 * The JSON half of the Bundle builder (WrapInBundle/wrap_in_bundle.py):
 * rewriting local references inside a resource and wrapping the
 * resources into a transaction Bundle.
 */
module JsonBundle {
  import opened Wrappers
  import opened FhirRefs

  /** A JSON value as `json.load` gives it; objects keep their key order. */
  datatype Json =
    | JNull
    | JBool(b: bool)
    | JNumber(text: string)
    | JString(s: string)
    | JArray(elems: seq<Json>)
    | JObject(members: seq<Member>)

  datatype Member = Member(key: string, value: Json)

  /** A loaded JSON resource: an object with a resourceType. */
  type JsonItem = Item<seq<Member>>

  // ------------------------------------------------------------ rewriting

  /** `_rewrite_references_json`: the rewritten value and the unresolved references, in document order. */
  function Rewrite(node: Json, refmap: map<string, string>): (r: (Json, seq<string>))
    ensures r.0.JObject? <==> node.JObject?
    ensures r.0.JArray? <==> node.JArray?
    ensures !node.JObject? && !node.JArray? ==> r.0 == node && r.1 == []
    decreases node
  {
    match node
    case JObject(members) =>
      var (out, unresolved) := RewriteMembers(members, refmap);
      (JObject(out), unresolved)
    case JArray(elems) =>
      var (out, unresolved) := RewriteElems(elems, refmap);
      (JArray(out), unresolved)
    case _ => (node, [])
  }

  function RewriteMembers(members: seq<Member>, refmap: map<string, string>): (seq<Member>, seq<string>)
    decreases members
  {
    if members == [] then ([], [])
    else
      var (init, u1) := RewriteMembers(members[..|members| - 1], refmap);
      var (last, u2) := RewriteMember(members[|members| - 1], refmap);
      (init + [last], u1 + u2)
  }

  /** A "reference" string that looks like `Type/id` is resolved or reported; anything else is walked into. */
  function RewriteMember(m: Member, refmap: map<string, string>): (Member, seq<string>)
    decreases m
  {
    if m.key == "reference" && m.value.JString? && IsRefKey(m.value.s) then
      if m.value.s in refmap then (Member(m.key, JString(refmap[m.value.s])), [])
      else (m, [m.value.s])
    else
      var (v, unresolved) := Rewrite(m.value, refmap);
      (Member(m.key, v), unresolved)
  }

  function RewriteElems(elems: seq<Json>, refmap: map<string, string>): (seq<Json>, seq<string>)
    decreases elems
  {
    if elems == [] then ([], [])
    else
      var (init, u1) := RewriteElems(elems[..|elems| - 1], refmap);
      var (last, u2) := Rewrite(elems[|elems| - 1], refmap);
      (init + [last], u1 + u2)
  }

  // ------------------------------------------------------- what it keeps

  /** The value with every "reference" string blanked: what a rewrite may not change. */
  function Erase(node: Json): Json
    decreases node
  {
    match node
    case JObject(members) => JObject(EraseMembers(members))
    case JArray(elems) => JArray(EraseElems(elems))
    case _ => node
  }

  function EraseMembers(members: seq<Member>): seq<Member>
    decreases members
  {
    if members == [] then []
    else EraseMembers(members[..|members| - 1]) + [EraseMember(members[|members| - 1])]
  }

  function EraseMember(m: Member): Member
    decreases m
  {
    if m.key == "reference" && m.value.JString? then Member(m.key, JString(""))
    else Member(m.key, Erase(m.value))
  }

  function EraseElems(elems: seq<Json>): seq<Json>
    decreases elems
  {
    if elems == [] then []
    else EraseElems(elems[..|elems| - 1]) + [Erase(elems[|elems| - 1])]
  }

  /**
   * The rewrite keeps the shape: the same keys in the same order, the
   * same array lengths, the same scalars; only "reference" strings can
   * change, and they stay strings.
   */
  lemma {:induction false} RewriteKeepsShape(node: Json, refmap: map<string, string>)
    ensures Erase(Rewrite(node, refmap).0) == Erase(node)
    decreases node
  {
    match node
    case JObject(members) => MembersKeepShape(members, refmap);
    case JArray(elems) => ElemsKeepShape(elems, refmap);
    case _ =>
  }

  lemma {:induction false} MembersKeepShape(members: seq<Member>, refmap: map<string, string>)
    ensures EraseMembers(RewriteMembers(members, refmap).0) == EraseMembers(members)
    decreases members
  {
    if members != [] {
      var m := members[|members| - 1];
      MembersKeepShape(members[..|members| - 1], refmap);
      if !(m.key == "reference" && m.value.JString? && IsRefKey(m.value.s)) {
        RewriteKeepsShape(m.value, refmap);
      }
      var out := RewriteMembers(members, refmap).0;
      assert out[..|out| - 1] == RewriteMembers(members[..|members| - 1], refmap).0;
    }
  }

  lemma {:induction false} ElemsKeepShape(elems: seq<Json>, refmap: map<string, string>)
    ensures EraseElems(RewriteElems(elems, refmap).0) == EraseElems(elems)
    decreases elems
  {
    if elems != [] {
      ElemsKeepShape(elems[..|elems| - 1], refmap);
      RewriteKeepsShape(elems[|elems| - 1], refmap);
      var out := RewriteElems(elems, refmap).0;
      assert out[..|out| - 1] == RewriteElems(elems[..|elems| - 1], refmap).0;
    }
  }

  /** Every reported reference looks like `Type/id` and has no resource in the input. */
  lemma {:induction false} UnresolvedAreMissing(node: Json, refmap: map<string, string>)
    ensures forall u :: u in Rewrite(node, refmap).1 ==> IsRefKey(u) && u !in refmap
    decreases node
  {
    match node
    case JObject(members) => MembersUnresolvedAreMissing(members, refmap);
    case JArray(elems) => ElemsUnresolvedAreMissing(elems, refmap);
    case _ =>
  }

  lemma {:induction false} MembersUnresolvedAreMissing(members: seq<Member>, refmap: map<string, string>)
    ensures forall u :: u in RewriteMembers(members, refmap).1 ==> IsRefKey(u) && u !in refmap
    decreases members
  {
    if members != [] {
      var m := members[|members| - 1];
      MembersUnresolvedAreMissing(members[..|members| - 1], refmap);
      if !(m.key == "reference" && m.value.JString? && IsRefKey(m.value.s)) {
        UnresolvedAreMissing(m.value, refmap);
      }
    }
  }

  lemma {:induction false} ElemsUnresolvedAreMissing(elems: seq<Json>, refmap: map<string, string>)
    ensures forall u :: u in RewriteElems(elems, refmap).1 ==> IsRefKey(u) && u !in refmap
    decreases elems
  {
    if elems != [] {
      ElemsUnresolvedAreMissing(elems[..|elems| - 1], refmap);
      UnresolvedAreMissing(elems[|elems| - 1], refmap);
    }
  }

  /**
   * With final refmap values (fullUrls), a second rewrite changes nothing
   * and reports the same references again.
   */
  lemma {:induction false} RewriteIdempotent(node: Json, refmap: map<string, string>)
    requires Final(refmap)
    ensures Rewrite(Rewrite(node, refmap).0, refmap) == (Rewrite(node, refmap).0, Rewrite(node, refmap).1)
    decreases node
  {
    match node
    case JObject(members) => MembersIdempotent(members, refmap);
    case JArray(elems) => ElemsIdempotent(elems, refmap);
    case _ =>
  }

  lemma {:induction false} MembersIdempotent(members: seq<Member>, refmap: map<string, string>)
    requires Final(refmap)
    ensures var once := RewriteMembers(members, refmap); RewriteMembers(once.0, refmap) == once
    decreases members
  {
    if members != [] {
      var init := members[..|members| - 1];
      var m := members[|members| - 1];
      MembersIdempotent(init, refmap);
      var once := RewriteMembers(members, refmap);
      var last := RewriteMember(m, refmap);
      assert once.0 == RewriteMembers(init, refmap).0 + [last.0];
      assert once.0[..|once.0| - 1] == RewriteMembers(init, refmap).0;
      if m.key == "reference" && m.value.JString? && IsRefKey(m.value.s) {
        if m.value.s in refmap {
          assert !IsRefKey(refmap[m.value.s]);
        }
      } else {
        RewriteIdempotent(m.value, refmap);
      }
      assert RewriteMember(last.0, refmap) == last;
    }
  }

  lemma {:induction false} ElemsIdempotent(elems: seq<Json>, refmap: map<string, string>)
    requires Final(refmap)
    ensures var once := RewriteElems(elems, refmap); RewriteElems(once.0, refmap) == once
    decreases elems
  {
    if elems != [] {
      var init := elems[..|elems| - 1];
      ElemsIdempotent(init, refmap);
      RewriteIdempotent(elems[|elems| - 1], refmap);
      var once := RewriteElems(elems, refmap);
      assert once.0[..|once.0| - 1] == RewriteElems(init, refmap).0;
    }
  }

  /** With nothing to resolve against, nothing changes. */
  lemma {:induction false} RewriteEmptyMap(node: Json)
    ensures Rewrite(node, map[]).0 == node
    decreases node
  {
    match node
    case JObject(members) => MembersEmptyMap(members);
    case JArray(elems) => ElemsEmptyMap(elems);
    case _ =>
  }

  lemma {:induction false} MembersEmptyMap(members: seq<Member>)
    ensures RewriteMembers(members, map[]).0 == members
    decreases members
  {
    if members != [] {
      var m := members[|members| - 1];
      MembersEmptyMap(members[..|members| - 1]);
      if !(m.key == "reference" && m.value.JString? && IsRefKey(m.value.s)) {
        RewriteEmptyMap(m.value);
      }
    }
  }

  lemma {:induction false} ElemsEmptyMap(elems: seq<Json>)
    ensures RewriteElems(elems, map[]).0 == elems
    decreases elems
  {
    if elems != [] {
      ElemsEmptyMap(elems[..|elems| - 1]);
      RewriteEmptyMap(elems[|elems| - 1]);
    }
  }

  /** A matching "reference" member of a resource is resolved to the fullUrl filed under it, or kept and reported. */
  lemma ReferenceMember(v: string, refmap: map<string, string>)
    requires IsRefKey(v)
    ensures RewriteMember(Member("reference", JString(v)), refmap) ==
      (Member("reference", JString(Resolved(v, refmap))), if v in refmap then [] else [v])
  {
  }

  /** A "reference" string that does not look like `Type/id` is left as it is and not reported. */
  lemma NonMatchingReferenceMember(v: string, refmap: map<string, string>)
    requires !IsRefKey(v)
    ensures RewriteMember(Member("reference", JString(v)), refmap) == (Member("reference", JString(v)), [])
  {
  }

  // ----------------------------------------------- what it reports

  /**
   * The local references written in a value, in document order: the
   * `Type/id` strings under "reference" keys, independent of any map.
   */
  function Refs(node: Json): seq<string>
    decreases node
  {
    match node
    case JObject(members) => RefsMembers(members)
    case JArray(elems) => RefsElems(elems)
    case _ => []
  }

  function RefsMembers(members: seq<Member>): seq<string>
    decreases members
  {
    if members == [] then []
    else RefsMembers(members[..|members| - 1]) + RefsMember(members[|members| - 1])
  }

  function RefsMember(m: Member): seq<string>
    decreases m
  {
    if m.key == "reference" && m.value.JString? && IsRefKey(m.value.s) then [m.value.s]
    else Refs(m.value)
  }

  function RefsElems(elems: seq<Json>): seq<string>
    decreases elems
  {
    if elems == [] then []
    else RefsElems(elems[..|elems| - 1]) + Refs(elems[|elems| - 1])
  }

  /** The rewrite reports exactly the references of the value that the map cannot resolve, in document order. */
  lemma {:induction false} RewriteReportsMissing(node: Json, refmap: map<string, string>)
    ensures Rewrite(node, refmap).1 == Missing(Refs(node), refmap)
    decreases node
  {
    match node
    case JObject(members) => MembersReportMissing(members, refmap);
    case JArray(elems) => ElemsReportMissing(elems, refmap);
    case _ =>
  }

  lemma {:induction false} MembersReportMissing(members: seq<Member>, refmap: map<string, string>)
    ensures RewriteMembers(members, refmap).1 == Missing(RefsMembers(members), refmap)
    decreases members
  {
    if members != [] {
      var init := members[..|members| - 1];
      var m := members[|members| - 1];
      MembersReportMissing(init, refmap);
      MissingConcat(RefsMembers(init), RefsMember(m), refmap);
      if m.key == "reference" && m.value.JString? && IsRefKey(m.value.s) {
        assert Missing([m.value.s], refmap) == Missing([], refmap) + (if m.value.s in refmap then [] else [m.value.s]);
      } else {
        RewriteReportsMissing(m.value, refmap);
      }
    }
  }

  lemma {:induction false} ElemsReportMissing(elems: seq<Json>, refmap: map<string, string>)
    ensures RewriteElems(elems, refmap).1 == Missing(RefsElems(elems), refmap)
    decreases elems
  {
    if elems != [] {
      var init := elems[..|elems| - 1];
      ElemsReportMissing(init, refmap);
      RewriteReportsMissing(elems[|elems| - 1], refmap);
      MissingConcat(RefsElems(init), Refs(elems[|elems| - 1]), refmap);
    }
  }

  // ------------------------------------------------------------- building

  /** `res.pop("id", None)` on the copied resource. */
  function PopId(members: seq<Member>): (r: seq<Member>)
    ensures forall i :: 0 <= i < |r| ==> r[i].key != "id"
    ensures forall m :: m in r <==> m in members && m.key != "id"
  {
    if members == [] then []
    else PopId(members[..|members| - 1]) + (if members[|members| - 1].key == "id" then [] else [members[|members| - 1]])
  }

  /** `{"method": "POST", "url": resourceType}`. */
  function Request(resourceType: string): Json {
    JObject([Member("method", JString("POST")), Member("url", JString(resourceType))])
  }

  /** One Bundle entry. */
  function Entry(fullUrl: string, resource: Json, resourceType: string): Json {
    JObject([Member("fullUrl", JString(fullUrl)), Member("resource", resource), Member("request", Request(resourceType))])
  }

  /** The resource as it goes into its entry: the copy without "id", references rewritten. */
  function EntryResource(it: JsonItem, refmap: map<string, string>): (Json, seq<string>) {
    Rewrite(JObject(PopId(it.payload)), refmap)
  }

  /** The local references written in the resource that goes into an item's entry. */
  function ResourceRefs(it: JsonItem): seq<string> {
    Refs(JObject(PopId(it.payload)))
  }

  /** The references written in each item's resource, item after item. */
  function AllRefs(items: seq<JsonItem>): (r: seq<seq<string>>)
    ensures |r| == |items| && forall k :: 0 <= k < |items| ==> r[k] == ResourceRefs(items[k])
  {
    seq(|items|, k requires 0 <= k < |items| => ResourceRefs(items[k]))
  }

  /** The Bundle around a list of entries. */
  function BundleOf(entries: seq<Json>): Json {
    JObject([Member("resourceType", JString("Bundle")), Member("type", JString("transaction")), Member("entry", JArray(entries))])
  }

  /** Entry `i` as `build_json_bundle` makes it. */
  predicate EntryFor(entry: Json, it: JsonItem, fullUrl: string, refmap: map<string, string>) {
    entry == Entry(fullUrl, EntryResource(it, refmap).0, it.resourceType)
  }

  /** The first `|entries|` entries are those of the first items, in order. */
  predicate EntriesFor(entries: seq<Json>, items: seq<JsonItem>, urls: seq<string>, refmap: map<string, string>)
    requires |urls| == |items|
  {
    |entries| <= |items| && forall k :: 0 <= k < |entries| ==> EntryFor(entries[k], items[k], urls[k], refmap)
  }

  lemma EntriesForSnoc(entries: seq<Json>, items: seq<JsonItem>, urls: seq<string>, refmap: map<string, string>, e: Json)
    requires |urls| == |items| && EntriesFor(entries, items, urls, refmap) && |entries| < |items|
    requires EntryFor(e, items[|entries|], urls[|entries|], refmap)
    ensures EntriesFor(entries + [e], items, urls, refmap)
  {
    var more := entries + [e];
    assert more[..|entries|] == entries && more[|entries|] == e;
  }

  /**
   * `build_json_bundle`, with the uuids it draws supplied: a transaction
   * Bundle with one entry per item in item order, and the references that
   * could not be resolved, in the order they were met.
   */
  method BuildJsonBundle(items: seq<JsonItem>, uuids: seq<string>)
    returns (bundle: Json, entries: seq<Json>, unresolved: seq<string>)
    requires |uuids| == |items|
    ensures bundle == BundleOf(entries) && |entries| == |items|
    ensures EntriesFor(entries, items, FullUrls(uuids), RefMap(items, FullUrls(uuids)))
    ensures forall u :: u in unresolved ==> IsRefKey(u) && u !in RefMap(items, FullUrls(uuids))
    ensures unresolved == MissingEach(AllRefs(items), RefMap(items, FullUrls(uuids)))
  {
    var refmap, urls := AssignFullUrls(items, uuids);
    assert urls == FullUrls(uuids);
    entries := [];
    unresolved := [];
    for i := 0 to |items|
      invariant |entries| == i && EntriesFor(entries, items, urls, refmap)
      invariant forall u :: u in unresolved ==> IsRefKey(u) && u !in refmap
      invariant unresolved == MissingEach(AllRefs(items)[..i], refmap)
    {
      var it := items[i];
      var res := PopId(it.payload);
      var rewritten := Rewrite(JObject(res), refmap);
      UnresolvedAreMissing(JObject(res), refmap);
      RewriteReportsMissing(JObject(res), refmap);
      MissingEachSnoc(AllRefs(items), i, refmap);
      assert AllRefs(items)[i] == Refs(JObject(res));
      unresolved := unresolved + rewritten.1;
      var entry := Entry(urls[i], rewritten.0, it.resourceType);
      EntriesForSnoc(entries, items, urls, refmap, entry);
      entries := entries + [entry];
    }
    bundle := BundleOf(entries);
    assert AllRefs(items)[..|items|] == AllRefs(items);
  }

  /**
   * The builder reports every reference it cannot resolve: a value is
   * reported exactly when some item's resource refers to it and no item
   * is filed under it.
   */
  lemma ReportsEveryMissing(items: seq<JsonItem>, refmap: map<string, string>, u: string)
    ensures u in MissingEach(AllRefs(items), refmap) <==>
      u !in refmap && exists k :: 0 <= k < |items| && u in ResourceRefs(items[k])
  {
    MissingEachMeaning(AllRefs(items), refmap, u);
    if exists k :: 0 <= k < |items| && u in ResourceRefs(items[k]) {
      var k :| 0 <= k < |items| && u in ResourceRefs(items[k]);
      assert u in AllRefs(items)[k];
    }
  }

  /**
   * What an entry holds: its fullUrl, a POST request to the resource type,
   * and the resource with the same members as the payload, in order,
   * except "id", with only reference strings changed.
   */
  lemma EntryContents(entry: Json, it: JsonItem, fullUrl: string, refmap: map<string, string>)
    requires EntryFor(entry, it, fullUrl, refmap)
    ensures entry.JObject? && |entry.members| == 3
    ensures entry.members[0] == Member("fullUrl", JString(fullUrl))
    ensures entry.members[2] == Member("request", Request(it.resourceType))
    ensures entry.members[1].key == "resource"
    ensures Erase(entry.members[1].value) == Erase(JObject(PopId(it.payload)))
    ensures entry.members[1].value.JObject? && forall m :: m in entry.members[1].value.members ==> m.key != "id"
  {
    var res := JObject(PopId(it.payload));
    RewriteKeepsShape(res, refmap);
    var out := Rewrite(res, refmap).0;
    MembersKeepShape(PopId(it.payload), refmap);
    EraseMembersKeys(RewriteMembers(PopId(it.payload), refmap).0);
    EraseMembersKeys(PopId(it.payload));
    forall m | m in out.members
      ensures m.key != "id"
    {
      var i :| 0 <= i < |out.members| && out.members[i] == m;
      assert EraseMembers(out.members)[i].key == m.key;
    }
  }

  /** Erasing keeps the keys, in order. */
  lemma {:induction false} EraseMembersKeys(members: seq<Member>)
    ensures |EraseMembers(members)| == |members|
    ensures forall i :: 0 <= i < |members| ==> EraseMembers(members)[i].key == members[i].key
    decreases |members|
  {
    if members != [] {
      EraseMembersKeys(members[..|members| - 1]);
    }
  }

  /**
   * A reference in a resource to another resource of the input, written
   * as its `Type/id`, ends up as the fullUrl of the last resource filed
   * under that key.
   */
  lemma LocalReferenceResolved<P>(items: seq<Item<P>>, uuids: seq<string>, i: int)
    requires |uuids| == |items| && 0 <= i < |items| && HasId(items[i])
    requires LastFiledAt(items, KeyOf(items[i].resourceType, items[i].id.value), i)
    requires IsTypePart(items[i].resourceType) && IsIdPart(items[i].id.value)
    ensures var k := KeyOf(items[i].resourceType, items[i].id.value);
      RewriteMember(Member("reference", JString(k)), RefMap(items, FullUrls(uuids))) ==
        (Member("reference", JString(FullUrl(uuids[i]))), [])
  {
    var k := KeyOf(items[i].resourceType, items[i].id.value);
    KeyOfMatches(items[i].resourceType, items[i].id.value);
    RefMapLastWins(items, FullUrls(uuids), k);
  }
}
