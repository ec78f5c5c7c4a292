/**
 * The part of the Medex scraper that turns the texts found on a brand's detail page into a
 * record: the strength read off the brand name, the dosage form guessed from the brand name
 * when the page has none, the unit price derived from the pack size, and the length cap on
 * the medical texts. Fetching and parsing the HTML is not part of this model: a page is given
 * as the texts its elements hold, `""` for an element the page lacks.
 */
module MedexScraper {
  import opened Wrappers
  import opened Text
  import opened Patterns
  import opened PriceText
  import CrossVerify

  // ---------------------------------------------------------------------------
  // Strength
  // ---------------------------------------------------------------------------

  /**
   * `\d+(?:\.\d+)?\s*(?:mg|mcg|ml|gm|iu|%|IU|MG)` under `re.IGNORECASE`. The trailing `IU` and
   * `MG` alternatives match nothing that `iu` and `mg` have not matched before them, so this is
   * the decimal pattern over the six strength units, case-folded.
   */
  const StrengthPattern: Pattern := DecimalUnit(StrengthUnits, true)

  /**
   * The strength of a brand: the first number-and-unit token of its name, lower-cased and with
   * its spaces removed, or `""` when the name holds none.
   */
  function Strength(brandName: string): (r: string)
    ensures CrossVerify.LowerWithoutSpace(r)
    ensures r == "" <==> NoMatchBetween(brandName, 0, |brandName| + 1, StrengthPattern)
    ensures r != "" ==> IsDigit(r[0])
  {
    match SearchFrom(brandName, 0, StrengthPattern)
    case None => ""
    case Some((i, m)) =>
      var token := Lower(brandName[i..m.end]);
      CrossVerify.LowerWithoutSpaceAfterDelete(brandName[i..m.end]);
      assert token[0] == LowerChar(brandName[i]);
      assert Delete(token, ' ') == [token[0]] + Delete(token[1..], ' ');
      Delete(token, ' ')
  }

  /** The strength is read off the leftmost token, wherever later tokens sit. */
  lemma StrengthIsFirstToken(brandName: string, i: nat)
    requires i <= |brandName| && MatchAt(brandName, i, StrengthPattern).Some?
    requires NoMatchBetween(brandName, 0, i, StrengthPattern)
    ensures var m := MatchAt(brandName, i, StrengthPattern).value;
      Strength(brandName) == Delete(Lower(brandName[i..m.end]), ' ')
  {
    var r := SearchFrom(brandName, 0, StrengthPattern);
    assert r.Some?;
    var j := r.value.0;
    assert MatchAt(brandName, i, StrengthPattern).Some?;
    assert MatchAt(brandName, j, StrengthPattern).Some?;
    assert j == i;
  }

  /**
   * Read off a name whose only whitespace is `' '` (as `normalize_text` leaves it), the
   * strength is already in the normal form of the cross-verification: its `normalize_strength`
   * leaves it as it is.
   */
  lemma StrengthIsNormalized(brandName: string)
    requires OnlyBlanks(brandName)
    ensures CrossVerify.NormalizeStrength(Strength(brandName)) == Strength(brandName)
  {
    match SearchFrom(brandName, 0, StrengthPattern)
    case None =>
    case Some((i, m)) =>
      OnlyBlanksInSlice(brandName, i, m.end);
      TokenIsNormalized(brandName[i..m.end]);
  }

  /** A token whose only whitespace is `' '`, lower-cased and without its `' '`, is a normal strength. */
  lemma TokenIsNormalized(x: string)
    requires OnlyBlanks(x)
    ensures CrossVerify.NormalizeStrength(Delete(Lower(x), ' ')) == Delete(Lower(x), ' ')
  {
    var r := Delete(Lower(x), ' ');
    OnlyBlanksDeleted(x);
    CrossVerify.LowerWithoutSpaceAfterDelete(x);
    CrossVerify.NormalizeStrengthWithoutWhitespace(r);
    LowerFixed(r);
  }

  // ---------------------------------------------------------------------------
  // Dosage form
  // ---------------------------------------------------------------------------

  /** The forms looked for in a brand name when the page gives none, in the order they are tried. */
  const FormPatterns: seq<string> :=
    ["tablet", "capsule", "syrup", "injection", "cream", "ointment", "drops", "suspension"]

  /** The first of `forms[i..]` that occurs in `text`, by position. */
  function FirstFormIn(text: string, forms: seq<string>, i: nat): (r: Option<nat>)
    requires i <= |forms|
    ensures r.Some? ==> i <= r.value < |forms| && Contains(text, forms[r.value])
    ensures r.Some? ==> forall j :: i <= j < r.value ==> !Contains(text, forms[j])
    ensures r.None? ==> forall j :: i <= j < |forms| ==> !Contains(text, forms[j])
    decreases |forms| - i
  {
    if i == |forms| then None
    else if Contains(text, forms[i]) then Some(i)
    else FirstFormIn(text, forms, i + 1)
  }

  /** The dosage form guessed from a brand name: the first listed form in it, title-cased. */
  function FallbackForm(brandName: string): string {
    match FirstFormIn(Lower(brandName), FormPatterns, 0)
    case None => ""
    case Some(k) => Title(FormPatterns[k])
  }

  predicate AllLowerLetters(s: string) {
    forall i :: 0 <= i < |s| ==> IsLowerLetter(s[i])
  }

  lemma FormPatternsAreWords()
    ensures forall k :: 0 <= k < |FormPatterns| ==> FormPatterns[k] != [] && AllLowerLetters(FormPatterns[k])
  {
  }

  /** Title-casing a lower-case word capitalises its first letter and nothing else. */
  lemma TitleOfWord(w: string)
    requires w != [] && AllLowerLetters(w)
    ensures IsUpper(Title(w)[0])
    ensures Lower(Title(w)) == w
  {
    var t := Title(w);
    forall i | 0 <= i < |w| ensures LowerChar(t[i]) == w[i] {
      assert t[i] == TitleChar(w, i);
    }
  }

  /**
   * The guess is empty exactly when no listed form occurs in the lower-cased name; otherwise it
   * is the first listed form that does, with an upper-case initial.
   */
  lemma FallbackFormMeaning(brandName: string)
    ensures var r := FallbackForm(brandName);
      && (r == "" <==> forall k :: 0 <= k < |FormPatterns| ==> !Contains(Lower(brandName), FormPatterns[k]))
      && (r != "" ==> IsUpper(r[0]))
      && (r != "" ==> exists k :: (0 <= k < |FormPatterns| && Lower(r) == FormPatterns[k]
            && Contains(Lower(brandName), FormPatterns[k])
            && forall j :: 0 <= j < k ==> !Contains(Lower(brandName), FormPatterns[j])))
  {
    match FirstFormIn(Lower(brandName), FormPatterns, 0)
    case None =>
    case Some(k) =>
      FormPatternsAreWords();
      TitleOfWord(FormPatterns[k]);
  }

  // ---------------------------------------------------------------------------
  // Pack quantity and unit price
  // ---------------------------------------------------------------------------

  /** The position of the first digit of `s` at or after `i`. */
  function FirstDigitFrom(s: string, i: nat): (r: Option<nat>)
    requires i <= |s|
    ensures r.Some? ==> i <= r.value < |s| && IsDigit(s[r.value])
    ensures r.Some? ==> forall j :: i <= j < r.value ==> !IsDigit(s[j])
    ensures r.None? ==> forall j :: i <= j < |s| ==> !IsDigit(s[j])
    decreases |s| - i
  {
    if i == |s| then None
    else if IsDigit(s[i]) then Some(i)
    else FirstDigitFrom(s, i + 1)
  }

  /** `int(re.search(r"(\d+)", s).group(1))`: the value of the first run of digits, if any. */
  function FirstInteger(s: string): (r: Option<nat>)
    ensures r.None? <==> !HasDigit(s)
    ensures r.Some? ==> exists i :: 0 <= i < |s| && IsDigit(s[i]) && r.value == DigitsValue(s[i..i + DigitRun(s, i)])
  {
    match FirstDigitFrom(s, 0)
    case None => None
    case Some(i) =>
      var run := s[i..i + DigitRun(s, i)];
      assert AllDigits(run) by {
        forall k | 0 <= k < |run| ensures IsDigit(run[k]) { assert run[k] == s[i + k]; }
      }
      Some(DigitsValue(run))
  }

  /** A text that is one run of digits is read whole. */
  lemma FirstIntegerOfDigits(s: string)
    requires s != "" && AllDigits(s)
    ensures FirstInteger(s) == Some(DigitsValue(s))
  {
    assert FirstDigitFrom(s, 0) == Some(0);
    assert DigitRun(s, 0) == |s|;
    assert s[0..|s|] == s;
  }

  /** `pack_quantity`: the first integer of the pack size, and 1 when it has none. */
  function PackQuantity(packSize: string): (q: nat)
    ensures !HasDigit(packSize) ==> q == 1
  {
    FirstInteger(packSize).GetOr(1)
  }

  lemma ShareSign(price: real, q: real)
    requires q > 0.0
    ensures price >= 0.0 ==> price / q >= 0.0
  {
  }

  /**
   * `unit_price`: the pack price over the pack quantity, rounded to two places, when the pack
   * size names a positive quantity; the pack price itself otherwise.
   */
  function UnitPriceOf(price: real, packSize: string): (r: real)
    ensures !HasDigit(packSize) || PackQuantity(packSize) == 0 ==> r == price
    ensures PackQuantity(packSize) > 0 ==>
      price / PackQuantity(packSize) as real - 0.005 < r <= price / PackQuantity(packSize) as real + 0.005
    ensures price >= 0.0 ==> r >= 0.0
  {
    var q := PackQuantity(packSize);
    if packSize != "" && FirstInteger(packSize).Some? && q > 0 then
      var share := price / q as real;
      assert price >= 0.0 ==> share >= 0.0 by { ShareSign(price, q as real); }
      Round2(share)
    else price
  }

  // ---------------------------------------------------------------------------
  // The detail page
  // ---------------------------------------------------------------------------

  /** The length medical texts are cut to. */
  const MaxTextLength: nat := 500

  /** The texts of a detail page's elements, `""` where the page has no such element. */
  datatype Page = Page(
    brandName: string,
    genericName: string,
    dosageForm: string,
    manufacturer: string,
    priceText: string,
    packSize: string,
    indication: string,
    sideEffects: string,
    contraindication: string,
    url: string)

  /** The record `scrape_brand_details` returns. */
  datatype BrandDetails = BrandDetails(
    brandName: string,
    genericName: string,
    strength: string,
    dosageForm: string,
    manufacturer: string,
    mrpPrice: real,
    unitPrice: real,
    packSize: string,
    packQuantity: nat,
    indication: string,
    sideEffects: string,
    contraindication: string,
    sourceUrl: string,
    source: string)

  /** `x[:500] if x else ""`. */
  function Capped(x: string): string {
    if x != "" then Truncate(x, MaxTextLength) else ""
  }

  /** The record built from a page. */
  function Details(page: Page): BrandDetails {
    var brandName := NormalizeText(page.brandName);
    var form := NormalizeText(page.dosageForm);
    var price := PriceOrZero(page.priceText);
    var packSize := NormalizeText(page.packSize);
    BrandDetails(
      brandName,
      NormalizeText(page.genericName),
      Strength(brandName),
      if form != "" then form else FallbackForm(brandName),
      NormalizeText(page.manufacturer),
      price,
      UnitPriceOf(price, packSize),
      packSize,
      PackQuantity(packSize),
      Capped(NormalizeText(page.indication)),
      Capped(NormalizeText(page.sideEffects)),
      Capped(NormalizeText(page.contraindication)),
      page.url,
      "medex")
  }

  /**
   * `scrape_brand_details` once the page is fetched: the fields are normalised, the strength
   * taken from the brand name, a missing dosage form guessed by a scan that stops at the first
   * hit, and the unit price reassigned once a positive pack quantity is found.
   */
  method ScrapeBrandDetails(page: Page) returns (d: BrandDetails)
    ensures d == Details(page)
  {
    var brandName := NormalizeText(page.brandName);
    var strength := Strength(brandName);
    var dosageForm := NormalizeText(page.dosageForm);
    if dosageForm == "" {
      dosageForm := GuessDosageForm(brandName);
    }
    var price := PriceOrZero(page.priceText);
    var packSize := NormalizeText(page.packSize);
    var unitPrice, packQuantity := DeriveUnitPrice(price, packSize);
    d := BrandDetails(
      brandName, NormalizeText(page.genericName), strength, dosageForm, NormalizeText(page.manufacturer),
      price, unitPrice, packSize, packQuantity,
      Capped(NormalizeText(page.indication)), Capped(NormalizeText(page.sideEffects)),
      Capped(NormalizeText(page.contraindication)), page.url, "medex");
  }

  /** The scan over the listed forms that stops at the first one found in the brand name. */
  method GuessDosageForm(brandName: string) returns (dosageForm: string)
    ensures dosageForm == FallbackForm(brandName)
  {
    dosageForm := "";
    var name := Lower(brandName);
    var k := 0;
    while k < |FormPatterns|
      invariant k <= |FormPatterns|
      invariant FirstFormIn(name, FormPatterns, k) == FirstFormIn(name, FormPatterns, 0)
      invariant dosageForm == ""
    {
      if Contains(name, FormPatterns[k]) {
        dosageForm := Title(FormPatterns[k]);
        break;
      }
      k := k + 1;
    }
  }

  /** `unit_price` and `pack_quantity` start as the pack price and 1 and are replaced on a match. */
  method DeriveUnitPrice(price: real, packSize: string) returns (unitPrice: real, packQuantity: nat)
    ensures unitPrice == UnitPriceOf(price, packSize)
    ensures packQuantity == PackQuantity(packSize)
  {
    unitPrice := price;
    packQuantity := 1;
    if packSize != "" {
      var packMatch := FirstInteger(packSize);
      if packMatch.Some? {
        packQuantity := packMatch.value;
        if packQuantity > 0 {
          unitPrice := Round2(price / packQuantity as real);
        }
      }
    }
  }

  /** `r` is the first `n` characters of `x`, or all of `x` when it is shorter. */
  predicate CutFrom(r: string, x: string, n: nat) {
    |r| == (if |x| <= n then |x| else n) && r == x[..|r|]
  }

  /**
   * Text fields keep the page's words and come out trimmed and single-spaced; each medical text
   * is the first 500 characters of its normalised text.
   */
  lemma DetailsTexts(page: Page)
    ensures var d := Details(page);
      && Words(d.brandName) == Words(page.brandName) && SingleSpaced(d.brandName) && Trimmed(d.brandName)
      && Words(d.genericName) == Words(page.genericName) && SingleSpaced(d.genericName) && Trimmed(d.genericName)
      && Words(d.manufacturer) == Words(page.manufacturer) && SingleSpaced(d.manufacturer) && Trimmed(d.manufacturer)
      && Words(d.packSize) == Words(page.packSize) && SingleSpaced(d.packSize) && Trimmed(d.packSize)
      && CutFrom(d.indication, NormalizeText(page.indication), MaxTextLength)
      && CutFrom(d.sideEffects, NormalizeText(page.sideEffects), MaxTextLength)
      && CutFrom(d.contraindication, NormalizeText(page.contraindication), MaxTextLength)
      && d.source == "medex"
  {
  }

  /**
   * The strength is the first token of the normalised brand name and is already in the
   * cross-verification's normal form; the dosage form is the page's own when it has one.
   */
  lemma DetailsStrengthAndForm(page: Page)
    ensures var d := Details(page);
      && (d.strength == "" <==> NoMatchBetween(d.brandName, 0, |d.brandName| + 1, StrengthPattern))
      && CrossVerify.NormalizeStrength(d.strength) == d.strength
      && (NormalizeText(page.dosageForm) != "" ==> d.dosageForm == NormalizeText(page.dosageForm))
      && (NormalizeText(page.dosageForm) == "" ==> d.dosageForm == FallbackForm(d.brandName))
  {
    var n := NormalizeText(page.brandName);
    assert SingleSpaced(n);
    StrengthIsNormalized(n);
  }

  /**
   * Prices are never negative, and a positive pack quantity divides the pack price into the
   * unit price to within half a cent; without one the unit price is the pack price.
   */
  lemma DetailsPrices(page: Page)
    ensures var d := Details(page);
      && d.mrpPrice >= 0.0 && d.unitPrice >= 0.0
      && (d.packQuantity > 0 ==>
            d.mrpPrice / d.packQuantity as real - 0.005 < d.unitPrice <= d.mrpPrice / d.packQuantity as real + 0.005)
      && (d.packQuantity == 0 ==> d.unitPrice == d.mrpPrice)
      && (!HasDigit(d.packSize) ==> d.packQuantity == 1 && d.unitPrice == d.mrpPrice)
  {
  }
}
