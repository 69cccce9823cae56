/**
 * The release year and rarity tier read from an item's small annotation text
 * (`extract_year_and_type`).
 */
module Annotation {
  import opened Wrappers
  import opened Text

  /** The rarity tier; `Code()` is the integer the scraper stores. */
  datatype ItemType = Normal | Secret | SuperSecret {

    function Code(): (c: int)
      ensures c in {0, 2, 3}
      ensures c == 0 <==> Normal?
      ensures c == 3 <==> SuperSecret?
    {
      match this
      case Normal => 0
      case Secret => 2
      case SuperSecret => 3
    }
  }

  const SuperSecretMarker: string := "super secret"
  const SecretMarker: string := "secret"

  /** The year is the first four characters when there are at least four
      and all of them are digits. */
  function YearOf(smallText: string): (r: Option<string>)
    ensures r.Some? ==> |r.value| == 4 && IsDigitString(r.value) && StartsWith(smallText, r.value)
    ensures |smallText| < 4 ==> r.None?
  {
    if |smallText| >= 4 && IsDigitString(smallText[..4]) then Some(smallText[..4]) else None
  }

  /** Every text that mentions "super secret" also mentions "secret", which is
      why the "super secret" test has to come first. */
  lemma SuperSecretIsSecret(lower: string)
    ensures Contains(lower, SuperSecretMarker) ==> Contains(lower, SecretMarker)
  {
    if Contains(lower, SuperSecretMarker) {
      assert SuperSecretMarker == "super " + SecretMarker;
      ContainsTail(lower, "super ", SecretMarker);
    }
  }

  /** `extract_year_and_type`: `(year, type)` for an annotation. */
  function ExtractYearAndType(smallText: string): (r: (Option<string>, ItemType))
    ensures smallText == [] ==> r == (None, Normal)
    ensures |smallText| < 4 ==> r.0 == None
    ensures r.0.Some? <==> |smallText| >= 4 && AllDigits(smallText[..4])
    ensures r.0.Some? ==> r.0.value == smallText[..4]
    ensures r.1 == SuperSecret <==> Contains(Lower(smallText), SuperSecretMarker)
    ensures r.1 == Secret <==> Contains(Lower(smallText), SecretMarker)
                               && !Contains(Lower(smallText), SuperSecretMarker)
    ensures r.1 == Normal <==> !Contains(Lower(smallText), SecretMarker)
  {
    var lower := Lower(smallText);
    SuperSecretIsSecret(lower);
    if smallText == [] then
      (None, Normal)
    else
      var year := YearOf(smallText);
      if Contains(lower, SuperSecretMarker) then (year, SuperSecret)
      else if Contains(lower, SecretMarker) then (year, Secret)
      else (year, Normal)
  }

  // Three annotations as the catalog writes them. Each is stated for a `t`
  // equal to the literal, which keeps the verifier from unfolding the
  // classifier on the literal text.

  lemma ExampleLimited(t: string)
    requires t == "2021 Limited"
    ensures ExtractYearAndType(t) == (Some("2021"), Normal)
  {
    var lower := Lower(t);
    assert !Contains(lower, SecretMarker) by {
      assert lower == "2021 limited";
      NotContainsMissingChar(lower, SecretMarker, 2);
    }
    assert t[..4] == "2021" && AllDigits(t[..4]);
  }

  lemma ExampleSecret(t: string)
    requires t == "2019 Secret"
    ensures ExtractYearAndType(t) == (Some("2019"), Secret)
  {
    var lower := Lower(t);
    assert !Contains(lower, SuperSecretMarker) by {
      ContainsIffOccurs(lower, SuperSecretMarker);
    }
    assert Contains(lower, SecretMarker) by {
      assert lower[5..] == SecretMarker;
      ContainsIffOccurs(lower, SecretMarker);
      assert OccursAt(lower, SecretMarker, 5);
    }
    assert t[..4] == "2019" && AllDigits(t[..4]);
  }

  lemma ExampleSuperSecret(t: string)
    requires t == "Super Secret"
    ensures ExtractYearAndType(t) == (None, SuperSecret)
  {
    assert Contains(Lower(t), SuperSecretMarker) by {
      assert Lower(t) == SuperSecretMarker;
      assert StartsWith(Lower(t), SuperSecretMarker);
    }
    assert !IsDigit(t[0]);
  }
}
