/**
 * CheckDisplayValues/CheckDisplayValues/DisplayValue.cs and Translation.cs:
 * a code found in a resource with its current display, and the
 * translations the terminology server knows for it.
 */
module DisplayValues {
  import opened Wrappers
  import opened Strings

  /** `Translation`: a language, and the optional `Use` and `Display`. */
  datatype Translation = Translation(language: string, use: Option<string>, display: Option<string>)

  /** `x.Use == use`: a missing use never equals a string. */
  predicate HasUse(t: Translation, use: string) {
    t.use == Some(use)
  }

  /** `Any(x => x.Use == use)`. */
  function AnyUse(ts: seq<Translation>, use: string): (r: bool)
    ensures r <==> exists i :: 0 <= i < |ts| && HasUse(ts[i], use)
  {
    if ts == [] then false
    else if HasUse(ts[0], use) then true
    else
      var r := AnyUse(ts[1..], use);
      assert forall i :: 1 <= i < |ts| ==> ts[1..][i - 1] == ts[i];
      r
  }

  /** The translations whose language contains `lang`, in their original order. */
  function InLanguage(ts: seq<Translation>, lang: string): (r: seq<Translation>)
    ensures |r| <= |ts|
  {
    if ts == [] then []
    else
      var init := InLanguage(ts[..|ts| - 1], lang);
      if Contains(ts[|ts| - 1].language, lang) then init + [ts[|ts| - 1]] else init
  }

  /** One more translation: it is kept exactly when its language matches. */
  lemma InLanguageSnoc(ts: seq<Translation>, i: nat, lang: string)
    requires i < |ts|
    ensures InLanguage(ts[..i + 1], lang) == InLanguage(ts[..i], lang) + (if Contains(ts[i].language, lang) then [ts[i]] else [])
  {
    assert ts[..i + 1][..i] == ts[..i];
  }

  /** The list, or `null` when it is empty. */
  function NonEmptyOrNull(ts: seq<Translation>): (r: Option<seq<Translation>>)
    ensures r.None? <==> ts == []
    ensures r.Some? ==> r.value == ts
  {
    if ts == [] then None else Some(ts)
  }

  /**
   * Exactly the translations in `lang` are kept: every kept one is in the
   * list with a matching language, every such one is kept, and the result
   * is empty only when none matches.
   */
  lemma {:induction false} InLanguageMembers(ts: seq<Translation>, lang: string)
    ensures forall t :: t in InLanguage(ts, lang) <==> t in ts && Contains(t.language, lang)
    ensures InLanguage(ts, lang) == [] <==> forall i :: 0 <= i < |ts| ==> !Contains(ts[i].language, lang)
  {
    if ts != [] {
      var init := ts[..|ts| - 1];
      InLanguageMembers(init, lang);
      assert ts == init + [ts[|ts| - 1]];
      if InLanguage(ts, lang) == [] {
        forall i | 0 <= i < |ts|
          ensures !Contains(ts[i].language, lang)
        {
          if i < |init| {
            assert ts[i] == init[i];
          }
        }
      }
    }
  }

  /** The filter keeps the order: filtering two parts is filtering each in turn. */
  lemma {:induction false} InLanguageConcat(a: seq<Translation>, b: seq<Translation>, lang: string)
    ensures InLanguage(a + b, lang) == InLanguage(a, lang) + InLanguage(b, lang)
  {
    if b == [] {
      assert a + b == a;
    } else {
      var init := b[..|b| - 1];
      InLanguageConcat(a, init, lang);
      assert (a + b)[..|a + b| - 1] == a + init;
    }
  }

  /**
   * `DisplayValue`: a code with its system, the display the resource has
   * (`null` when the coding has none) and the correct translations (`null`
   * when none were looked up).
   */
  datatype DisplayValue = DisplayValue(
    system: string, code: string,
    displayCurrent: Option<string>, displayCorrect: Option<seq<Translation>>)
  {
    /** `IsZiBValueSet`: some translation has Use "ZiB". */
    predicate IsZiBValueSet()
      requires displayCorrect.Some?
      ensures IsZiBValueSet() <==> exists t :: t in displayCorrect.value && t.use == Some("ZiB")
    {
      AnyUse(displayCorrect.value, "ZiB")
    }

    /** `GetDutchDisplayValues`: the translations whose language contains "nl", or `null` if there are none. */
    method GetDutchDisplayValues() returns (r: Option<seq<Translation>>)
      requires displayCorrect.Some?
      ensures r == NonEmptyOrNull(InLanguage(displayCorrect.value, "nl"))
    {
      var ts := displayCorrect.value;
      var dutch: seq<Translation> := [];
      for i := 0 to |ts|
        invariant dutch == InLanguage(ts[..i], "nl")
      {
        InLanguageSnoc(ts, i, "nl");
        if Contains(ts[i].language, "nl") {
          dutch := dutch + [ts[i]];
        }
      }
      assert ts[..|ts|] == ts;
      if |dutch| > 0 {
        r := Some(dutch);
      } else {
        r := None;
      }
    }

    /** `GetEnglishDisplayValues`: the same filter for "en". */
    method GetEnglishDisplayValues() returns (r: Option<seq<Translation>>)
      requires displayCorrect.Some?
      ensures r == NonEmptyOrNull(InLanguage(displayCorrect.value, "en"))
    {
      var ts := displayCorrect.value;
      var english: seq<Translation> := [];
      for i := 0 to |ts|
        invariant english == InLanguage(ts[..i], "en")
      {
        InLanguageSnoc(ts, i, "en");
        if Contains(ts[i].language, "en") {
          english := english + [ts[i]];
        }
      }
      assert ts[..|ts|] == ts;
      if |english| > 0 {
        r := Some(english);
      } else {
        r := None;
      }
    }
  }
}
