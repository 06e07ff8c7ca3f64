/**
 * The XML half of the Bundle builder (WrapInBundle/wrap_in_bundle.py):
 * tag names in ElementTree's `{namespace}local` form, rewriting the
 * `value` of `<reference>` elements, and the transaction Bundle element.
 */
module XmlBundle {
  import opened Wrappers
  import opened Strings
  import opened FhirRefs

  /** An ElementTree element: its tag, its attributes and its children, in order. */
  datatype Element = Element(tag: string, attrs: map<string, string>, children: seq<Element>)

  /** A loaded XML resource. */
  type XmlItem = Item<Element>

  // ----------------------------------------------------------------- tags

  /** Where the first "}" is, if anywhere. */
  function CloseBrace(tag: string): (r: Option<nat>)
    ensures r.None? <==> '}' !in tag
    ensures r.Some? ==> r.value < |tag| && tag[r.value] == '}' && '}' !in tag[..r.value]
  {
    if tag == [] then None
    else if tag[0] == '}' then Some(0)
    else
      var r := CloseBrace(tag[1..]);
      if r.Some? then
        assert tag[..r.value + 1] == [tag[0]] + tag[1..][..r.value];
        Some(r.value + 1)
      else
        assert tag == [tag[0]] + tag[1..];
        None
  }

  /** `_local`: the text after the first "}", or the whole tag. */
  function Local(tag: string): (r: string)
    ensures |r| <= |tag|
    ensures '}' !in tag ==> r == tag
  {
    match CloseBrace(tag)
    case None => tag
    case Some(p) => tag[p + 1..]
  }

  /** With a "}" in the tag, the local name is what follows the first one. */
  lemma LocalAfterFirstBrace(tag: string)
    requires '}' in tag
    ensures var n := |tag| - |Local(tag)|;
      n >= 1 && Local(tag) == tag[n..] && tag[n - 1] == '}' && '}' !in tag[..n - 1]
  {
    var p := CloseBrace(tag).value;
    assert Local(tag) == tag[p + 1..];
    assert |tag| - |Local(tag)| == p + 1;
  }

  /** `_ns`: for a tag starting with "{", the text between it and the first "}" (or the rest of the tag). */
  function Ns(tag: string): (r: Option<string>)
    ensures r.Some? <==> |tag| > 0 && tag[0] == '{'
    ensures r.Some? ==> 1 + |r.value| <= |tag| && r.value == tag[1..1 + |r.value|] && '}' !in r.value
    ensures r.Some? && 1 + |r.value| < |tag| ==> tag[1 + |r.value|] == '}'
  {
    if |tag| == 0 || tag[0] != '{' then None
    else
      match CloseBrace(tag)
      case None => Some(tag[1..])
      case Some(p) => Some(tag[1..p])
  }

  /** `{ns}local`, the form ElementTree gives a namespaced tag. */
  function QName(ns: string, local: string): string {
    "{" + ns + "}" + local
  }

  /** Splitting a namespaced tag gives back its namespace and local name. */
  lemma QNameParts(ns: string, local: string)
    requires '}' !in ns
    ensures Ns(QName(ns, local)) == Some(ns)
    ensures Local(QName(ns, local)) == local
  {
    var tag := QName(ns, local);
    var p := |ns| + 1;
    assert tag[p] == '}';
    assert tag[..p] == "{" + ns;
    assert '}' !in tag[..p];
    CloseBraceFirst(tag, p);
    assert tag[1..p] == ns;
    assert tag[p + 1..] == local;
  }

  lemma CloseBraceFirst(tag: string, p: nat)
    requires p < |tag| && tag[p] == '}' && '}' !in tag[..p]
    ensures CloseBrace(tag) == Some(p)
  {
  }

  /** A tag without "}" is its own local name, and without a leading "{" it has no namespace. */
  lemma PlainTag(tag: string)
    ensures '}' !in tag ==> Local(tag) == tag
    ensures (|tag| == 0 || tag[0] != '{') ==> Ns(tag).None?
  {
  }

  // ------------------------------------------------------------ rewriting

  /** The path step `{*}reference`: the tag is "reference" or ends in "}reference". */
  predicate IsReference(e: Element) {
    e.tag == "reference" || EndsWith(e.tag, "}reference")
  }

  /** Any namespaced `<reference>` matches, and a plain tag matches only when it is "reference". */
  lemma ReferenceTags(ns: string, local: string)
    ensures IsReference(Element(QName(ns, local), map[], [])) <== local == "reference"
    ensures '}' !in local ==> (IsReference(Element(local, map[], [])) <==> local == "reference")
  {
    if local == "reference" {
      var tag := QName(ns, local);
      assert tag[|tag| - 10..] == "}reference";
    }
    if '}' !in local && |local| >= 10 {
      assert local[|local| - 10] != '}';
      assert local[|local| - 10..][0] != '}';
    }
  }

  /**
   * The attributes of one element after the rewrite, and what it reports:
   * a `<reference>` whose non-empty `value` looks like `Type/id` is
   * resolved, or reported when there is nothing to resolve it to.
   */
  function RewriteAttrs(e: Element, refmap: map<string, string>): (map<string, string>, seq<string>) {
    if IsReference(e) && "value" in e.attrs && e.attrs["value"] != "" && IsRefKey(e.attrs["value"]) then
      var v := e.attrs["value"];
      if v in refmap then (e.attrs["value" := refmap[v]], []) else (e.attrs, [v])
    else (e.attrs, [])
  }

  /** The element and everything below it, in document order. */
  function RewriteTree(e: Element, refmap: map<string, string>): (r: (Element, seq<string>))
    ensures r.0.tag == e.tag
    ensures !IsReference(e) ==> r.0.attrs == e.attrs
    decreases e
  {
    var (attrs, own) := RewriteAttrs(e, refmap);
    var (children, below) := RewriteForest(e.children, refmap);
    (Element(e.tag, attrs, children), own + below)
  }

  function RewriteForest(es: seq<Element>, refmap: map<string, string>): (r: (seq<Element>, seq<string>))
    ensures |r.0| == |es|
    decreases es
  {
    if es == [] then ([], [])
    else
      var (init, u1) := RewriteForest(es[..|es| - 1], refmap);
      var (last, u2) := RewriteTree(es[|es| - 1], refmap);
      (init + [last], u1 + u2)
  }

  /** `_rewrite_references_xml`: `.//{*}reference` finds the descendants, not the element itself. */
  function RewriteBelow(e: Element, refmap: map<string, string>): (r: (Element, seq<string>))
    ensures r.0.tag == e.tag && r.0.attrs == e.attrs
    ensures |r.0.children| == |e.children|
  {
    var (children, unresolved) := RewriteForest(e.children, refmap);
    (Element(e.tag, e.attrs, children), unresolved)
  }

  /** The element with the `value` of every `<reference>` blanked: what a rewrite may not change. */
  function EraseTree(e: Element): Element
    decreases e
  {
    Element(e.tag, if IsReference(e) && "value" in e.attrs then e.attrs["value" := ""] else e.attrs, EraseForest(e.children))
  }

  function EraseForest(es: seq<Element>): seq<Element>
    decreases es
  {
    if es == [] then [] else EraseForest(es[..|es| - 1]) + [EraseTree(es[|es| - 1])]
  }

  /** Tags, children and every other attribute stay as they were; only reference values change. */
  lemma {:induction false} TreeKeepsShape(e: Element, refmap: map<string, string>)
    ensures EraseTree(RewriteTree(e, refmap).0) == EraseTree(e)
    decreases e
  {
    ForestKeepsShape(e.children, refmap);
    var a := RewriteAttrs(e, refmap).0;
    if IsReference(e) && "value" in e.attrs {
      assert a["value" := ""] == e.attrs["value" := ""];
    }
  }

  lemma {:induction false} ForestKeepsShape(es: seq<Element>, refmap: map<string, string>)
    ensures EraseForest(RewriteForest(es, refmap).0) == EraseForest(es)
    decreases es
  {
    if es != [] {
      ForestKeepsShape(es[..|es| - 1], refmap);
      TreeKeepsShape(es[|es| - 1], refmap);
      var out := RewriteForest(es, refmap).0;
      assert out[..|out| - 1] == RewriteForest(es[..|es| - 1], refmap).0;
    }
  }

  /** Every reported value looks like `Type/id` and has no resource in the input. */
  lemma {:induction false} TreeUnresolvedAreMissing(e: Element, refmap: map<string, string>)
    ensures forall u :: u in RewriteTree(e, refmap).1 ==> IsRefKey(u) && u !in refmap
    decreases e
  {
    ForestUnresolvedAreMissing(e.children, refmap);
  }

  lemma {:induction false} ForestUnresolvedAreMissing(es: seq<Element>, refmap: map<string, string>)
    ensures forall u :: u in RewriteForest(es, refmap).1 ==> IsRefKey(u) && u !in refmap
    decreases es
  {
    if es != [] {
      ForestUnresolvedAreMissing(es[..|es| - 1], refmap);
      TreeUnresolvedAreMissing(es[|es| - 1], refmap);
    }
  }

  /** The reference value written on an element itself, if it is one the rewrite looks at. */
  function OwnRef(e: Element): seq<string> {
    if IsReference(e) && "value" in e.attrs && e.attrs["value"] != "" && IsRefKey(e.attrs["value"]) then [e.attrs["value"]]
    else []
  }

  /** The local references written in an element and below it, in document order, independent of any map. */
  function TreeRefs(e: Element): seq<string>
    decreases e
  {
    OwnRef(e) + ForestRefs(e.children)
  }

  function ForestRefs(es: seq<Element>): seq<string>
    decreases es
  {
    if es == [] then [] else ForestRefs(es[..|es| - 1]) + TreeRefs(es[|es| - 1])
  }

  /** The rewrite reports exactly the references of the element that the map cannot resolve, in document order. */
  lemma {:induction false} TreeReportsMissing(e: Element, refmap: map<string, string>)
    ensures RewriteTree(e, refmap).1 == Missing(TreeRefs(e), refmap)
    decreases e
  {
    var own := RewriteAttrs(e, refmap).1;
    var below := RewriteForest(e.children, refmap).1;
    assert RewriteTree(e, refmap).1 == own + below;
    ForestReportsMissing(e.children, refmap);
    MissingConcat(OwnRef(e), ForestRefs(e.children), refmap);
    assert own == Missing(OwnRef(e), refmap) by {
      if OwnRef(e) != [] {
        var v := e.attrs["value"];
        assert Missing([v], refmap) == Missing([], refmap) + (if v in refmap then [] else [v]);
      }
    }
  }

  lemma {:induction false} ForestReportsMissing(es: seq<Element>, refmap: map<string, string>)
    ensures RewriteForest(es, refmap).1 == Missing(ForestRefs(es), refmap)
    decreases es
  {
    if es != [] {
      var init := es[..|es| - 1];
      ForestReportsMissing(init, refmap);
      TreeReportsMissing(es[|es| - 1], refmap);
      MissingConcat(ForestRefs(init), TreeRefs(es[|es| - 1]), refmap);
    }
  }

  /** With final refmap values (fullUrls), a second rewrite changes nothing and reports the same values. */
  lemma {:induction false} TreeIdempotent(e: Element, refmap: map<string, string>)
    requires Final(refmap)
    ensures var once := RewriteTree(e, refmap); RewriteTree(once.0, refmap) == once
    decreases e
  {
    ForestIdempotent(e.children, refmap);
    var once := RewriteTree(e, refmap);
    if IsReference(e) && "value" in e.attrs && e.attrs["value"] != "" && IsRefKey(e.attrs["value"]) {
      var v := e.attrs["value"];
      if v in refmap {
        assert !IsRefKey(refmap[v]);
      }
    }
    assert RewriteAttrs(once.0, refmap) == RewriteAttrs(e, refmap);
  }

  lemma {:induction false} ForestIdempotent(es: seq<Element>, refmap: map<string, string>)
    requires Final(refmap)
    ensures var once := RewriteForest(es, refmap); RewriteForest(once.0, refmap) == once
    decreases es
  {
    if es != [] {
      var init := es[..|es| - 1];
      ForestIdempotent(init, refmap);
      TreeIdempotent(es[|es| - 1], refmap);
      var once := RewriteForest(es, refmap);
      assert once.0[..|once.0| - 1] == RewriteForest(init, refmap).0;
    }
  }

  /** A `<reference>` with an empty or absent value is skipped. */
  lemma EmptyReferenceSkipped(e: Element, refmap: map<string, string>)
    requires IsReference(e) && ("value" !in e.attrs || e.attrs["value"] == "")
    ensures RewriteAttrs(e, refmap) == (e.attrs, [])
  {
  }

  // ------------------------------------------------------------- building

  /** Child `i` is an `<id>` with value `v`. */
  predicate IdValueAt(root: Element, i: int, v: string) {
    0 <= i < |root.children| && Local(root.children[i].tag) == "id" &&
    "value" in root.children[i].attrs && root.children[i].attrs["value"] == v
  }

  /** `_find_child(root, "id")`, then its `value` attribute, if any. */
  function ReadId(root: Element): (r: Option<string>)
    ensures r.Some? ==> exists i :: IdValueAt(root, i, r.value)
    ensures FirstId(root.children).None? ==> r.None?
  {
    match FirstId(root.children)
    case None => None
    case Some(i) =>
      var attrs := root.children[i].attrs;
      if "value" in attrs then
        assert IdValueAt(root, i, attrs["value"]);
        Some(attrs["value"])
      else None
  }

  /** The item loaded from a file whose root is a resource: its type is the root's local name. */
  function LoadResource(root: Element): (it: XmlItem)
    ensures it.payload == root && it.resourceType == Local(root.tag) && it.id == ReadId(root)
  {
    Item(Local(root.tag), ReadId(root), root)
  }

  /** Where the first child named "id" is, if any. */
  function FirstId(children: seq<Element>): (r: Option<nat>)
    ensures r.Some? ==> r.value < |children| && Local(children[r.value].tag) == "id"
    ensures r.Some? ==> forall k :: 0 <= k < r.value ==> Local(children[k].tag) != "id"
    ensures r.None? ==> forall k :: 0 <= k < |children| ==> Local(children[k].tag) != "id"
  {
    if children == [] then None
    else if Local(children[0].tag) == "id" then Some(0)
    else
      var r := FirstId(children[1..]);
      if r.Some? then Some(r.value + 1) else None
  }

  /** The children after removing the first one named "id". */
  function WithoutFirstId(children: seq<Element>): seq<Element> {
    match FirstId(children)
    case None => children
    case Some(i) => children[..i] + children[i + 1..]
  }

  /** The loop that removes the first child named "id" and stops. */
  method RemoveFirstId(children: seq<Element>) returns (kept: seq<Element>)
    ensures kept == WithoutFirstId(children)
  {
    kept := children;
    var i := 0;
    while i < |children|
      invariant 0 <= i <= |children|
      invariant forall k :: 0 <= k < i ==> Local(children[k].tag) != "id"
      invariant kept == children
    {
      if Local(children[i].tag) == "id" {
        kept := children[..i] + children[i + 1..];
        assert FirstId(children) == Some(i);
        return;
      }
      i := i + 1;
    }
  }

  /** `T(local)`: a tag in the Bundle's namespace. */
  function T(ns: string, local: string): string {
    QName(ns, local)
  }

  /** An element with only a `value` attribute. */
  function Valued(tag: string, value: string): Element {
    Element(tag, map["value" := value], [])
  }

  /** One entry element. */
  function EntryElement(ns: string, fullUrl: string, resource: Element, resourceType: string): Element {
    Element(T(ns, "entry"), map[], [
      Valued(T(ns, "fullUrl"), fullUrl),
      Element(T(ns, "resource"), map[], [resource]),
      Element(T(ns, "request"), map[], [Valued(T(ns, "method"), "POST"), Valued(T(ns, "url"), resourceType)])])
  }

  /** The resource as it goes into its entry: the copy without its first `<id>`, references below it rewritten. */
  function EntryResource(it: XmlItem, refmap: map<string, string>): (Element, seq<string>) {
    var p := it.payload;
    RewriteBelow(Element(p.tag, p.attrs, WithoutFirstId(p.children)), refmap)
  }

  /**
   * The resource in an entry is the item's element with its tag and
   * attributes, and its children without the first `<id>`; below them
   * only reference values differ.
   */
  lemma EntryResourceShape(it: XmlItem, refmap: map<string, string>)
    ensures var r := EntryResource(it, refmap).0;
      r.tag == it.payload.tag && r.attrs == it.payload.attrs &&
      EraseForest(r.children) == EraseForest(WithoutFirstId(it.payload.children))
  {
    ForestKeepsShape(WithoutFirstId(it.payload.children), refmap);
  }

  /** The local references written below the resource that goes into an item's entry. */
  function ResourceRefs(it: XmlItem): seq<string> {
    ForestRefs(WithoutFirstId(it.payload.children))
  }

  /** The references written in each item's resource, item after item. */
  function AllRefs(items: seq<XmlItem>): (r: seq<seq<string>>)
    ensures |r| == |items| && forall k :: 0 <= k < |items| ==> r[k] == ResourceRefs(items[k])
  {
    seq(|items|, k requires 0 <= k < |items| => ResourceRefs(items[k]))
  }

  /**
   * The builder reports every reference it cannot resolve: a value is
   * reported exactly when some item's resource refers to it and no item
   * is filed under it.
   */
  lemma ReportsEveryMissing(items: seq<XmlItem>, refmap: map<string, string>, u: string)
    ensures u in MissingEach(AllRefs(items), refmap) <==>
      u !in refmap && exists k :: 0 <= k < |items| && u in ResourceRefs(items[k])
  {
    MissingEachMeaning(AllRefs(items), refmap, u);
    if exists k :: 0 <= k < |items| && u in ResourceRefs(items[k]) {
      var k :| 0 <= k < |items| && u in ResourceRefs(items[k]);
      assert u in AllRefs(items)[k];
    }
  }

  /** `namespace or "http://hl7.org/fhir"`. */
  function BundleNamespace(namespace: Option<string>): string {
    if namespace.Some? && namespace.value != "" then namespace.value else "http://hl7.org/fhir"
  }

  predicate EntryFor(entry: Element, ns: string, it: XmlItem, fullUrl: string, refmap: map<string, string>) {
    entry == EntryElement(ns, fullUrl, EntryResource(it, refmap).0, it.resourceType)
  }

  predicate EntriesFor(entries: seq<Element>, ns: string, items: seq<XmlItem>, urls: seq<string>, refmap: map<string, string>)
    requires |urls| == |items|
  {
    |entries| <= |items| && forall k :: 0 <= k < |entries| ==> EntryFor(entries[k], ns, items[k], urls[k], refmap)
  }

  lemma EntriesForSnoc(entries: seq<Element>, ns: string, items: seq<XmlItem>, urls: seq<string>, refmap: map<string, string>, e: Element)
    requires |urls| == |items| && EntriesFor(entries, ns, items, urls, refmap) && |entries| < |items|
    requires EntryFor(e, ns, items[|entries|], urls[|entries|], refmap)
    ensures EntriesFor(entries + [e], ns, items, urls, refmap)
  {
    var more := entries + [e];
    forall k | 0 <= k < |more|
      ensures EntryFor(more[k], ns, items[k], urls[k], refmap)
    {
      if k < |entries| {
        assert more[k] == entries[k];
      } else {
        assert more[k] == e;
      }
    }
  }

  /**
   * `build_xml_bundle`, with the uuids it draws supplied: a `<Bundle>` whose
   * first child is `<type value="transaction"/>`, followed by one entry per
   * item in item order; and the references that could not be resolved.
   */
  method BuildXmlBundle(items: seq<XmlItem>, namespace: Option<string>, uuids: seq<string>)
    returns (bundle: Element, unresolved: seq<string>)
    requires |uuids| == |items|
    ensures var ns := BundleNamespace(namespace);
      bundle.tag == T(ns, "Bundle") && bundle.attrs == map[] &&
      |bundle.children| == |items| + 1 && bundle.children[0] == Valued(T(ns, "type"), "transaction") &&
      EntriesFor(bundle.children[1..], ns, items, FullUrls(uuids), RefMap(items, FullUrls(uuids)))
    ensures forall u :: u in unresolved ==> IsRefKey(u) && u !in RefMap(items, FullUrls(uuids))
    ensures unresolved == MissingEach(AllRefs(items), RefMap(items, FullUrls(uuids)))
  {
    var refmap, urls := AssignFullUrls(items, uuids);
    assert urls == FullUrls(uuids);
    var ns := BundleNamespace(namespace);
    var typeEl := Valued(T(ns, "type"), "transaction");
    var entries;
    entries, unresolved := BuildEntries(ns, items, urls, refmap);
    bundle := Element(T(ns, "Bundle"), map[], [typeEl] + entries);
    assert bundle.children[1..] == entries;
  }

  /** The loop of `build_xml_bundle` over the resources: their entries, in order, and what they leave unresolved. */
  method BuildEntries(ns: string, items: seq<XmlItem>, urls: seq<string>, refmap: map<string, string>)
    returns (entries: seq<Element>, unresolved: seq<string>)
    requires |urls| == |items|
    ensures |entries| == |items| && EntriesFor(entries, ns, items, urls, refmap)
    ensures forall u :: u in unresolved ==> IsRefKey(u) && u !in refmap
    ensures unresolved == MissingEach(AllRefs(items), refmap)
  {
    entries := [];
    unresolved := [];
    for i := 0 to |items|
      invariant EntriesSoFar(entries, unresolved, ns, items, urls, refmap, i)
    {
      var entry, reported := BuildEntry(ns, items[i], urls[i], refmap);
      EntriesStep(entries, unresolved, ns, items, urls, refmap, i, entry, reported);
      unresolved := unresolved + reported;
      entries := entries + [entry];
    }
    assert AllRefs(items)[..|items|] == AllRefs(items);
  }

  /** What the entry loop has built after the first `i` resources. */
  predicate EntriesSoFar(entries: seq<Element>, unresolved: seq<string>, ns: string, items: seq<XmlItem>,
                         urls: seq<string>, refmap: map<string, string>, i: nat)
    requires |urls| == |items|
  {
    i <= |items| && |entries| == i && EntriesFor(entries, ns, items, urls, refmap) &&
    (forall u :: u in unresolved ==> IsRefKey(u) && u !in refmap) &&
    unresolved == MissingEach(AllRefs(items)[..i], refmap)
  }

  /** One pass of the entry loop keeps `EntriesSoFar`. */
  lemma EntriesStep(entries: seq<Element>, unresolved: seq<string>, ns: string, items: seq<XmlItem>,
                    urls: seq<string>, refmap: map<string, string>, i: nat, entry: Element, reported: seq<string>)
    requires |urls| == |items| && i < |items| && EntriesSoFar(entries, unresolved, ns, items, urls, refmap, i)
    requires EntryFor(entry, ns, items[i], urls[i], refmap)
    requires reported == Missing(ResourceRefs(items[i]), refmap)
    requires forall u :: u in reported ==> IsRefKey(u) && u !in refmap
    ensures EntriesSoFar(entries + [entry], unresolved + reported, ns, items, urls, refmap, i + 1)
  {
    MissingEachSnoc(AllRefs(items), i, refmap);
    EntriesForSnoc(entries, ns, items, urls, refmap, entry);
  }

  /** One pass of the entry loop: the entry for a resource and the references it leaves unresolved. */
  method BuildEntry(ns: string, it: XmlItem, fullUrl: string, refmap: map<string, string>)
    returns (entry: Element, reported: seq<string>)
    ensures EntryFor(entry, ns, it, fullUrl, refmap)
    ensures reported == Missing(ResourceRefs(it), refmap)
    ensures forall u :: u in reported ==> IsRefKey(u) && u !in refmap
  {
    var kept := RemoveFirstId(it.payload.children);
    var rewritten := RewriteBelow(Element(it.payload.tag, it.payload.attrs, kept), refmap);
    ForestUnresolvedAreMissing(kept, refmap);
    ForestReportsMissing(kept, refmap);
    reported := rewritten.1;
    entry := EntryElement(ns, fullUrl, rewritten.0, it.resourceType);
  }

  /**
   * Only the first `<id>` child goes: the resource keeps its tag and
   * attributes, every child before it and every child after it, in order.
   */
  lemma WithoutFirstIdKeeps(children: seq<Element>)
    ensures FirstId(children).None? ==> WithoutFirstId(children) == children
    ensures FirstId(children).Some? ==>
      var i := FirstId(children).value;
      |WithoutFirstId(children)| == |children| - 1 &&
      WithoutFirstId(children)[..i] == children[..i] && WithoutFirstId(children)[i..] == children[i + 1..]
  {
  }

  // ------------------------------------------------------------ namespace

  /** The namespace of the first item whose tag has one: the loop keeps looking while it has none. */
  function FirstNamespace(tags: seq<string>): Option<string> {
    if tags == [] then None
    else if Ns(tags[0]).Some? then Ns(tags[0])
    else FirstNamespace(tags[1..])
  }

  /** The loop in `main` that picks the Bundle's namespace from the loaded items. */
  method PickNamespace(tags: seq<string>) returns (firstNs: Option<string>)
    ensures firstNs == FirstNamespace(tags)
  {
    firstNs := None;
    for i := 0 to |tags|
      invariant firstNs.None? ==> forall k :: 0 <= k < i ==> Ns(tags[k]).None?
      invariant firstNs.Some? ==> exists k :: 0 <= k < i && firstNs == Ns(tags[k]) && forall j :: 0 <= j < k ==> Ns(tags[j]).None?
    {
      if firstNs.None? {
        firstNs := Ns(tags[i]);
      }
    }
    FirstNamespaceIs(tags, firstNs);
  }

  lemma {:induction false} FirstNamespaceIs(tags: seq<string>, ns: Option<string>)
    requires ns.None? ==> forall k :: 0 <= k < |tags| ==> Ns(tags[k]).None?
    requires ns.Some? ==> exists k :: 0 <= k < |tags| && ns == Ns(tags[k]) && forall j :: 0 <= j < k ==> Ns(tags[j]).None?
    ensures ns == FirstNamespace(tags)
    decreases |tags|
  {
    if tags != [] && Ns(tags[0]).None? {
      if ns.Some? {
        var k :| 0 <= k < |tags| && ns == Ns(tags[k]) && forall j :: 0 <= j < k ==> Ns(tags[j]).None?;
        assert k > 0 && tags[1..][k - 1] == tags[k];
        forall j | 0 <= j < k - 1
          ensures Ns(tags[1..][j]).None?
        {
          assert tags[1..][j] == tags[j + 1];
        }
      }
      FirstNamespaceIs(tags[1..], ns);
    }
  }

  // ------------------------------------------------------------ exit code

  /** The two kinds of resource file the bundler accepts. */
  datatype Kind = XmlKind | JsonKind

  /** The kind of a file, decided by its lower-cased suffix (only ".json" and ".xml" reach here). */
  function KindOf(suffix: string): Kind {
    if Lower(suffix) == ".xml" then XmlKind else JsonKind
  }

  /** The files are of more than one kind. */
  predicate Mixed(suffixes: seq<string>) {
    exists i, j :: 0 <= i < |suffixes| && 0 <= j < |suffixes| && KindOf(suffixes[i]) != KindOf(suffixes[j])
  }

  /**
   * The status `main` returns, given the suffixes of the files found,
   * whether an output path was given and whether writing it failed.
   */
  function MainExit(suffixes: seq<string>, hasOutput: bool, writeFails: bool): (r: int)
    ensures 0 <= r <= 3
    ensures r == 0 ==> suffixes != [] && !Mixed(suffixes)
    ensures !hasOutput ==> r != 3
  {
    if suffixes == [] then 1
    else if Mixed(suffixes) then 2
    else if hasOutput && writeFails then 3
    else 0
  }

  /**
   * 1 exactly when no file was found, 2 exactly for a mix of JSON and XML,
   * 3 exactly when writing the requested output failed, 0 otherwise; a
   * run without an output path never fails.
   */
  lemma MainExitCodes(suffixes: seq<string>, hasOutput: bool, writeFails: bool)
    ensures MainExit(suffixes, hasOutput, writeFails) == 1 <==> suffixes == []
    ensures MainExit(suffixes, hasOutput, writeFails) == 2 <==> suffixes != [] && Mixed(suffixes)
    ensures MainExit(suffixes, hasOutput, writeFails) == 3 <==> suffixes != [] && !Mixed(suffixes) && hasOutput && writeFails
    ensures !hasOutput ==> MainExit(suffixes, hasOutput, writeFails) in {0, 1, 2}
    ensures MainExit(suffixes, hasOutput, writeFails) in {0, 1, 2, 3}
  {
  }

  /** Files of one kind only: ".xml" and ".XML" are the same kind, ".json" is another. */
  lemma MixedKinds()
    ensures !Mixed([".xml", ".XML"])
    ensures Mixed([".json", ".xml"])
  {
    assert Lower(".XML") == ".xml";
    var s := [".json", ".xml"];
    assert KindOf(s[0]) != KindOf(s[1]);
  }
}
