/**
 * What the Bundle builder (WrapInBundle/wrap_in_bundle.py) needs before it
 * writes anything: which strings count as local references `Type/id`,
 * the fullUrl each resource gets, and the map from `Type/id` to fullUrl.
 */
module FhirRefs {
  import opened Wrappers

  predicate IsAsciiLetter(c: char) {
    'A' <= c <= 'Z' || 'a' <= c <= 'z'
  }

  predicate IsAsciiAlnum(c: char) {
    IsAsciiLetter(c) || '0' <= c <= '9'
  }

  /** A character of the id part: `[A-Za-z0-9\-.]`. */
  predicate IsIdChar(c: char) {
    IsAsciiAlnum(c) || c == '-' || c == '.'
  }

  /** A resource type as the pattern takes it: a letter, then at most 63 letters or digits. */
  predicate IsTypePart(t: string) {
    1 <= |t| <= 64 && IsAsciiLetter(t[0]) && forall i :: 1 <= i < |t| ==> IsAsciiAlnum(t[i])
  }

  /** An id as the pattern takes it: 1 to 64 id characters. */
  predicate IsIdPart(id: string) {
    1 <= |id| <= 64 && forall i :: 0 <= i < |id| ==> IsIdChar(id[i])
  }

  /** `v` is a type part, "/" at position `p`, then an id part. */
  predicate SlashAt(v: string, p: int) {
    0 < p < |v| && v[p] == '/' && IsTypePart(v[..p]) && IsIdPart(v[p + 1..])
  }

  /** `Type/id` with nothing around it. */
  predicate IsPlainRefKey(v: string) {
    exists p :: 0 < p < |v| && p <= 64 && SlashAt(v, p)
  }

  /**
   * `_REF_KEY_RE.match(v)`: Python's `$` also matches just before a final
   * newline, so a key followed by one "\n" matches too.
   */
  predicate IsRefKey(v: string) {
    IsPlainRefKey(v) || (|v| > 0 && v[|v| - 1] == '\n' && IsPlainRefKey(v[..|v| - 1]))
  }

  /** The key `refmap` files a resource under. */
  function KeyOf(resourceType: string, id: string): string {
    resourceType + "/" + id
  }

  /** Every resource whose type and id fit the pattern can be referred to by its key. */
  lemma KeyOfMatches(resourceType: string, id: string)
    requires IsTypePart(resourceType) && IsIdPart(id)
    ensures IsRefKey(KeyOf(resourceType, id))
  {
    var v := KeyOf(resourceType, id);
    var p := |resourceType|;
    assert v[..p] == resourceType && v[p + 1..] == id;
    assert SlashAt(v, p);
  }

  /** `f"urn:uuid:{uuid}"`. */
  function FullUrl(uuid: string): string {
    "urn:uuid:" + uuid
  }

  /** A fullUrl never looks like a local reference, so it is never rewritten again. */
  lemma FullUrlNotRefKey(uuid: string)
    ensures !IsRefKey(FullUrl(uuid))
  {
    var v := FullUrl(uuid);
    assert v[1] == 'r' && v[2] == 'n' && v[3] == ':';
    NoSlashBeforeColon(v);
    var w := v[..|v| - 1];
    assert |v| >= 9;
    assert w[1] == 'r' && w[2] == 'n' && w[3] == ':';
    NoSlashBeforeColon(w);
  }

  lemma NoSlashBeforeColon(v: string)
    requires |v| >= 4 && v[1] != '/' && v[2] != '/' && v[3] == ':'
    ensures !IsPlainRefKey(v)
  {
    forall p | 0 < p < |v| && p <= 64
      ensures !SlashAt(v, p)
    {
      if p > 3 {
        assert v[..p][3] == ':';
      }
    }
  }

  /** Different uuids give different fullUrls. */
  lemma FullUrlInjective(a: string, b: string)
    requires FullUrl(a) == FullUrl(b)
    ensures a == b
  {
    assert a == FullUrl(a)[9..];
  }

  /** The fullUrls of all items. */
  function FullUrls(uuids: seq<string>): (urls: seq<string>)
    ensures |urls| == |uuids| && forall i :: 0 <= i < |uuids| ==> urls[i] == FullUrl(uuids[i])
  {
    if uuids == [] then [] else FullUrls(uuids[..|uuids| - 1]) + [FullUrl(uuids[|uuids| - 1])]
  }

  /** A resource as the loaders yield it; `P` is the JSON object or the XML element. */
  datatype Item<P> = Item(resourceType: string, id: Option<string>, payload: P)

  /** `if it.id:` — present and not empty. */
  predicate HasId<P>(it: Item<P>) {
    it.id.Some? && it.id.value != ""
  }

  /** `refmap` after the first `|items|` items, each filed under its key with its fullUrl. */
  function RefMap<P>(items: seq<Item<P>>, urls: seq<string>): map<string, string>
    requires |urls| == |items|
  {
    if items == [] then map[]
    else
      var n := |items| - 1;
      var earlier := RefMap(items[..n], urls[..n]);
      if HasId(items[n]) then earlier[KeyOf(items[n].resourceType, items[n].id.value) := urls[n]] else earlier
  }

  /** Item `i` is filed under `k`, and no later item is. */
  predicate LastFiledAt<P>(items: seq<Item<P>>, k: string, i: int) {
    0 <= i < |items| && HasId(items[i]) && KeyOf(items[i].resourceType, items[i].id.value) == k &&
    forall j :: i < j < |items| ==> !(HasId(items[j]) && KeyOf(items[j].resourceType, items[j].id.value) == k)
  }

  /**
   * `refmap` has a key exactly for the items with an id, and each key
   * leads to the fullUrl of the last item filed under it.
   */
  lemma {:induction false} RefMapLastWins<P>(items: seq<Item<P>>, urls: seq<string>, k: string)
    requires |urls| == |items|
    ensures k in RefMap(items, urls) <==> exists i :: LastFiledAt(items, k, i)
    ensures forall i :: LastFiledAt(items, k, i) ==> RefMap(items, urls)[k] == urls[i]
    decreases |items|
  {
    if items != [] {
      var n := |items| - 1;
      var init := items[..n];
      RefMapLastWins(init, urls[..n], k);
      if HasId(items[n]) && KeyOf(items[n].resourceType, items[n].id.value) == k {
        assert LastFiledAt(items, k, n);
        forall i | LastFiledAt(items, k, i)
          ensures i == n
        {
        }
      } else {
        forall i | LastFiledAt(init, k, i)
          ensures LastFiledAt(items, k, i)
        {
          assert items[i] == init[i];
          forall j | i < j < |items|
            ensures !(HasId(items[j]) && KeyOf(items[j].resourceType, items[j].id.value) == k)
          {
            if j < n {
              assert items[j] == init[j];
            }
          }
        }
        forall i | LastFiledAt(items, k, i)
          ensures LastFiledAt(init, k, i) && urls[i] == urls[..n][i]
        {
          assert i < n;
          assert items[i] == init[i];
          forall j | i < j < |init|
            ensures !(HasId(init[j]) && KeyOf(init[j].resourceType, init[j].id.value) == k)
          {
            assert items[j] == init[j];
          }
        }
      }
    }
  }

  /**
   * `_assign_fullurls`: one fullUrl per item index, made from the uuid
   * drawn for it, and `refmap` filled in item order.
   */
  method AssignFullUrls<P>(items: seq<Item<P>>, uuids: seq<string>) returns (refmap: map<string, string>, urls: seq<string>)
    requires |uuids| == |items|
    ensures |urls| == |items| && forall i :: 0 <= i < |items| ==> urls[i] == FullUrl(uuids[i])
    ensures refmap == RefMap(items, urls)
  {
    refmap := map[];
    urls := [];
    for i := 0 to |items|
      invariant |urls| == i && forall k :: 0 <= k < i ==> urls[k] == FullUrl(uuids[k])
      invariant refmap == RefMap(items[..i], urls)
    {
      var fu := FullUrl(uuids[i]);
      assert items[..i + 1][..i] == items[..i];
      assert (urls + [fu])[..i] == urls;
      urls := urls + [fu];
      if items[i].id.Some? && items[i].id.value != "" {
        refmap := refmap[KeyOf(items[i].resourceType, items[i].id.value) := fu];
      }
    }
    assert items[..|items|] == items;
  }

  /** Distinct uuids give every item its own fullUrl. */
  lemma FullUrlsDistinct(uuids: seq<string>, urls: seq<string>)
    requires |urls| == |uuids| && forall i :: 0 <= i < |uuids| ==> urls[i] == FullUrl(uuids[i])
    requires forall i, j :: 0 <= i < j < |uuids| ==> uuids[i] != uuids[j]
    ensures forall i, j :: 0 <= i < j < |urls| ==> urls[i] != urls[j]
  {
    forall i, j | 0 <= i < j < |urls|
      ensures urls[i] != urls[j]
    {
      if urls[i] == urls[j] {
        FullUrlInjective(uuids[i], uuids[j]);
      }
    }
  }

  /** The value a matching reference gets: its fullUrl when the key is filed, else itself. */
  function Resolved(v: string, refmap: map<string, string>): string {
    if v in refmap then refmap[v] else v
  }

  /** The references of `refs` that `refmap` cannot resolve, in order, repeats kept. */
  function Missing(refs: seq<string>, refmap: map<string, string>): seq<string> {
    if refs == [] then []
    else Missing(refs[..|refs| - 1], refmap) + (if refs[|refs| - 1] in refmap then [] else [refs[|refs| - 1]])
  }

  /** A reference is missing exactly when it occurs and has nothing to resolve it to. */
  lemma {:induction false} MissingMeaning(refs: seq<string>, refmap: map<string, string>)
    ensures forall u :: u in Missing(refs, refmap) <==> u in refs && u !in refmap
  {
    if refs != [] {
      var init := refs[..|refs| - 1];
      MissingMeaning(init, refmap);
      assert refs == init + [refs[|refs| - 1]];
    }
  }

  /** The missing references of two parts are those of the first, then those of the second. */
  lemma {:induction false} MissingConcat(a: seq<string>, b: seq<string>, refmap: map<string, string>)
    ensures Missing(a + b, refmap) == Missing(a, refmap) + Missing(b, refmap)
    decreases |b|
  {
    if b == [] {
      assert a + b == a;
    } else {
      var init := b[..|b| - 1];
      assert (a + b)[..|a + b| - 1] == a + init;
      MissingConcat(a, init, refmap);
    }
  }

  /** The missing references of several resources, resource after resource. */
  function MissingEach(refss: seq<seq<string>>, refmap: map<string, string>): seq<string> {
    if refss == [] then []
    else MissingEach(refss[..|refss| - 1], refmap) + Missing(refss[|refss| - 1], refmap)
  }

  /** One more resource adds its missing references at the end. */
  lemma MissingEachSnoc(refss: seq<seq<string>>, i: nat, refmap: map<string, string>)
    requires i < |refss|
    ensures MissingEach(refss[..i + 1], refmap) == MissingEach(refss[..i], refmap) + Missing(refss[i], refmap)
  {
    assert refss[..i + 1][..i] == refss[..i];
  }

  /** A value is among them exactly when some resource refers to it and the map has no entry for it. */
  lemma {:induction false} MissingEachMeaning(refss: seq<seq<string>>, refmap: map<string, string>, u: string)
    ensures u in MissingEach(refss, refmap) <==> u !in refmap && exists k :: 0 <= k < |refss| && u in refss[k]
  {
    if refss != [] {
      var init := refss[..|refss| - 1];
      var last := refss[|refss| - 1];
      MissingEachMeaning(init, refmap, u);
      MissingMeaning(last, refmap);
      if exists k :: 0 <= k < |init| && u in init[k] {
        var k :| 0 <= k < |init| && u in init[k];
        assert refss[k] == init[k];
      }
      if u in last {
        assert u in refss[|refss| - 1];
      }
      if (exists k :: 0 <= k < |refss| && u in refss[k]) && u !in last {
        var k :| 0 <= k < |refss| && u in refss[k];
        assert k < |init| && init[k] == refss[k];
      }
    }
  }

  /** Values that no longer look like references are left alone by a second pass. */
  predicate Final(refmap: map<string, string>) {
    forall k :: k in refmap ==> !IsRefKey(refmap[k])
  }

  /** A refmap built from fullUrls is final. */
  lemma RefMapFinal<P>(items: seq<Item<P>>, uuids: seq<string>, urls: seq<string>)
    requires |urls| == |items| == |uuids| && forall i :: 0 <= i < |items| ==> urls[i] == FullUrl(uuids[i])
    ensures Final(RefMap(items, urls))
  {
    forall k | k in RefMap(items, urls)
      ensures !IsRefKey(RefMap(items, urls)[k])
    {
      RefMapLastWins(items, urls, k);
      var i :| LastFiledAt(items, k, i);
      FullUrlNotRefKey(uuids[i]);
    }
  }
}
