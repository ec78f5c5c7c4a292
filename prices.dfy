/**
 * The pipeline reads price text in three ways. The database builder's `parse_price`
 * (`BuildDb.ParsePrice`) keeps "no price" apart from a price of zero; the validator's
 * `validate_price` (`Validate.ValidatePrice`) also bounds the value; the Medex scraper's
 * `normalize_price` and the Kaggle importer's `parse_price` are one and the same function on
 * text, which folds every failure into `0.0`. This module models that last one and pins down
 * where it agrees with the other two and where it loses information they keep.
 */
module PriceText {
  import opened Wrappers
  import opened Text
  import BuildDb
  import Validate

  /** A string has a digit exactly when its first character is one or the rest has one. */
  lemma HasDigitCons(s: string)
    requires s != []
    ensures HasDigit(s) <==> IsDigit(s[0]) || HasDigit(s[1..])
  {
    if HasDigit(s) && !IsDigit(s[0]) {
      var i :| 0 <= i < |s| && IsDigit(s[i]);
      assert s[1..][i - 1] == s[i];
    }
    if HasDigit(s[1..]) {
      var i :| 0 <= i < |s[1..]| && IsDigit(s[1..][i]);
      assert s[i + 1] == s[1..][i];
    }
  }

  /** Dropping everything but digits and dots keeps every digit. */
  lemma {:induction false} KeepDigitsAndDotsHasDigit(s: string)
    ensures HasDigit(KeepDigitsAndDots(s)) <==> HasDigit(s)
  {
    if s != [] {
      var rest := KeepDigitsAndDots(s[1..]);
      KeepDigitsAndDotsHasDigit(s[1..]);
      HasDigitCons(s);
      if IsDigit(s[0]) || s[0] == '.' {
        assert KeepDigitsAndDots(s) == [s[0]] + rest;
        HasDigitCons([s[0]] + rest);
        assert ([s[0]] + rest)[1..] == rest;
      } else {
        assert KeepDigitsAndDots(s) == rest;
      }
    }
  }

  /**
   * `normalize_price` of the Medex scraper and `parse_price` of the Kaggle importer: empty
   * text is `0.0`; otherwise only digits and dots are kept and read as a decimal, and an
   * empty or malformed remainder is `0.0` as well.
   */
  function PriceOrZero(s: string): (r: real)
    ensures r >= 0.0
    ensures !HasDigit(s) ==> r == 0.0
    ensures AllDigits(s) && s != "" ==> r == DigitsValue(s) as real
  {
    if s == "" then 0.0
    else
      var cleaned := KeepDigitsAndDots(s);
      KeepDigitsAndDotsHasDigit(s);
      if cleaned == "" then 0.0
      else
        match ParseDecimal(cleaned)
        case Some(v) => v
        case None => 0.0
  }

  /**
   * The zero-default parser is the database builder's parser on text with `None` read as
   * zero: the two fail on the same inputs and agree on every value.
   */
  lemma PriceOrZeroIsParsePriceOrZero(s: string)
    ensures PriceOrZero(s) == BuildDb.ParsePrice(BuildDb.Str(s)).GetOr(0.0)
    ensures BuildDb.ParsePrice(BuildDb.Str(s)).None? ==> PriceOrZero(s) == 0.0
    ensures PriceOrZero(s) > 0.0 <==> BuildDb.ParsePrice(BuildDb.Str(s)).Some? && BuildDb.ParsePrice(BuildDb.Str(s)).value > 0.0
  {
  }

  /**
   * Where the parsers part ways: the database builder tells empty text, text without a number
   * and the text "0" apart (`None`, `None`, `0.0`), and refuses the number zero; the
   * zero-default parser reads all three texts as `0.0`.
   */
  lemma ZeroDefaultConflates()
    ensures PriceOrZero("") == 0.0 && BuildDb.ParsePrice(BuildDb.Str("")) == None
    ensures PriceOrZero("Tk.") == 0.0 && BuildDb.ParsePrice(BuildDb.Str("Tk.")) == None
    ensures PriceOrZero("0") == 0.0 && BuildDb.ParsePrice(BuildDb.Str("0")) == Some(0.0)
    ensures BuildDb.ParsePrice(BuildDb.Number(0.0)) == None
  {
    BuildDb.ParsePriceZero();
    assert !HasDigit("Tk.") by {
      assert forall i :: 0 <= i < |"Tk."| ==> !IsDigit("Tk."[i]);
    }
    assert !HasDigit(KeepDigitsAndDots("Tk.")) by { KeepDigitsAndDotsHasDigit("Tk."); }
    assert AllDigits("0");
  }

  /**
   * Every price the validator accepts with a value is the value the zero-default parser reads;
   * a price it rejects is read as `0.0` or as more than the validator's bound.
   */
  lemma AgreesWithValidator(s: string)
    ensures Validate.ValidatePrice(s).1.Some? ==> PriceOrZero(s) == Validate.ValidatePrice(s).1.value
    ensures !Validate.ValidatePrice(s).0 ==> PriceOrZero(s) == 0.0 || PriceOrZero(s) > Validate.MaxPrice
    ensures Validate.ValidatePrice(s).0 && Validate.ValidatePrice(s).1.None? ==> s == "" && PriceOrZero(s) == 0.0
  {
    Validate.ValidatePriceMeaning(s);
  }
}
