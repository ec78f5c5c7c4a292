/**
 * `validate.py`: the sanity checks run over the scraped CSV before the database is built —
 * the price check, the per-record error list, and the tallies of the validation run.
 */
module Validate {
  import opened Wrappers
  import opened Text
  import opened CsvRows
  import MatchIndex

  /** The largest price the validator accepts. */
  const MaxPrice: real := 50000.0

  // ---------------------------------------------------------------------------
  // validate_price
  // ---------------------------------------------------------------------------

  /**
   * `validate_price`: `(is_valid, price)`. An empty price is acceptable but has no value;
   * otherwise every character other than a digit or `.` is dropped and the rest parsed.
   */
  function ValidatePrice(priceStr: string): (r: (bool, Option<real>))
    ensures r.1.Some? ==> r.0 && 0.0 <= r.1.value <= MaxPrice
    ensures !r.0 ==> r.1.None?
  {
    if priceStr == "" then (true, None)
    else
      match ParseDecimal(KeepDigitsAndDots(priceStr))
      case None => (false, None)
      case Some(price) =>
        if price < 0.0 then (false, None)
        else if price > MaxPrice then (false, None)
        else (true, Some(price))
  }

  /**
   * A non-empty price is accepted exactly when its digits and dots hold a digit and at most one
   * dot and their value is at most 50000; an accepted price always carries that value.
   */
  lemma ValidatePriceMeaning(priceStr: string)
    ensures priceStr == "" ==> ValidatePrice(priceStr) == (true, None)
    ensures var c := KeepDigitsAndDots(priceStr);
      priceStr != "" ==>
        (ValidatePrice(priceStr).0 <==> HasDigit(c) && CountChar(c, '.') <= 1 && ParseDecimal(c).value <= MaxPrice)
    ensures priceStr != "" && ValidatePrice(priceStr).0 ==> ValidatePrice(priceStr).1 == ParseDecimal(KeepDigitsAndDots(priceStr))
  {
  }

  /**
   * The `price < 0` check can never fire: the minus sign is one of the characters dropped
   * before parsing, so a leading `-` changes nothing.
   */
  lemma MinusSignIgnored(priceStr: string)
    requires priceStr != ""
    ensures ValidatePrice("-" + priceStr) == ValidatePrice(priceStr)
  {
    var m := "-" + priceStr;
    assert m[0] == '-' && m[1..] == priceStr;
    assert KeepDigitsAndDots(m) == KeepDigitsAndDots(priceStr);
  }

  /** Text without digits, or with a dot and no digits, does not parse. */
  lemma UnparseablePrices()
    ensures ValidatePrice("abc") == (false, None)
    ensures ValidatePrice("Tk.") == (false, None)
  {
    assert KeepDigitsAndDots("abc") == "";
    assert KeepDigitsAndDots("Tk.") == ".";
  }

  /** The bound is inclusive: exactly 50000 passes. */
  lemma UpperBoundInclusive()
    ensures ValidatePrice("50000") == (true, Some(50000.0))
  {
    var s := "50000";
    assert DigitsValue(s) == 50000 by {
      assert s[..4] == "5000" && s[..4][..3] == "500" && s[..3][..2] == "50" && s[..2][..1] == "5";
      assert DigitsValue("5") == 5;
      assert DigitsValue("50") == 50;
      assert DigitsValue("500") == 500;
      assert DigitsValue("5000") == 5000;
    }
    assert AllDigits(s);
    assert KeepDigitsAndDots(s) == s;
    assert ParseDecimal(s) == Some(50000.0);
  }

  /** A negative amount is read as its absolute value. */
  lemma NegativeAccepted()
    ensures ValidatePrice("-5") == (true, Some(5.0))
  {
    MinusSignIgnored("5");
    assert AllDigits("5");
    assert KeepDigitsAndDots("5") == "5";
    assert DigitsValue("5") == 5;
    assert ParseDecimal("5") == Some(5.0);
  }

  // ---------------------------------------------------------------------------
  // validate_record
  // ---------------------------------------------------------------------------

  datatype ValidationError =
    | MissingBrandName
    | MissingGenericName
    | MissingManufacturer
    | InvalidPrice(price: string)
  {
    /** The message the validator records for the error. */
    function Message(): string {
      match this
      case MissingBrandName => "Missing brand name"
      case MissingGenericName => "Missing generic name"
      case MissingManufacturer => "Missing manufacturer"
      case InvalidPrice(p) => "Invalid price: " + p
    }

    /** The position of the check that reports the error. */
    function Rank(): nat {
      match this
      case MissingBrandName => 0
      case MissingGenericName => 1
      case MissingManufacturer => 2
      case InvalidPrice(_) => 3
    }
  }

  /** Different errors have different messages, so tallying errors or messages is the same. */
  lemma MessageInjective(e1: ValidationError, e2: ValidationError)
    ensures e1.Message() == e2.Message() ==> e1 == e2
  {
    if e1.InvalidPrice? && e2.InvalidPrice? {
      var n := |"Invalid price: "|;
      assert e1.price == e1.Message()[n..];
      assert e2.price == e2.Message()[n..];
    } else if e1.InvalidPrice? != e2.InvalidPrice? {
      assert e1.Message()[0] != e2.Message()[0];
    } else {
      assert e1 != e2 ==> e1.Message()[8] != e2.Message()[8];
    }
  }

  /** The errors `validate_record` collects for `record`, in the order it checks them. */
  function RecordErrors(record: Row): seq<ValidationError> {
    (if Get(record, "brand_name") == "" then [MissingBrandName] else [])
    + (if Get(record, "generic_name") == "" then [MissingGenericName] else [])
    + (if Get(record, "manufacturer") == "" then [MissingManufacturer] else [])
    + (var price := Get(record, "price");
       if price != "" && !ValidatePrice(price).0 then [InvalidPrice(price)] else [])
  }

  /**
   * Each check reports its error exactly when its field is missing or, for the price, present and
   * rejected; the errors come in the fixed order brand, generic, manufacturer, price, each at most
   * once.
   */
  lemma RecordErrorsMeaning(record: Row)
    ensures var es := RecordErrors(record);
      && (MissingBrandName in es <==> Get(record, "brand_name") == "")
      && (MissingGenericName in es <==> Get(record, "generic_name") == "")
      && (MissingManufacturer in es <==> Get(record, "manufacturer") == "")
      && (forall p :: InvalidPrice(p) in es <==>
            p == Get(record, "price") && p != "" && !ValidatePrice(p).0)
  {
  }

  /** The errors come in the order of the checks, each check reporting at most once. */
  lemma RecordErrorsOrdered(record: Row)
    ensures var es := RecordErrors(record);
      forall i, j :: 0 <= i < j < |es| ==> es[i].Rank() < es[j].Rank()
  {
  }

  /** `validate_record`: collect the errors one check at a time; the record is valid iff there are none. */
  method ValidateRecord(record: Row) returns (isValid: bool, errors: seq<ValidationError>)
    ensures errors == RecordErrors(record)
    ensures isValid <==> errors == []
  {
    var brand := if Get(record, "brand_name") == "" then [MissingBrandName] else [];
    var generic := if Get(record, "generic_name") == "" then [MissingGenericName] else [];
    var manufacturer := if Get(record, "manufacturer") == "" then [MissingManufacturer] else [];
    errors := [];
    if Get(record, "brand_name") == "" {
      errors := errors + [MissingBrandName];
    }
    assert errors == brand;
    if Get(record, "generic_name") == "" {
      errors := errors + [MissingGenericName];
    }
    assert errors == brand + generic;
    if Get(record, "manufacturer") == "" {
      errors := errors + [MissingManufacturer];
    }
    assert errors == brand + generic + manufacturer;
    var price := Get(record, "price");
    if price != "" {
      var (isValidPrice, _) := ValidatePrice(price);
      if !isValidPrice {
        errors := errors + [InvalidPrice(price)];
      }
    }
    isValid := |errors| == 0;
  }

  // ---------------------------------------------------------------------------
  // The validation run (main)
  // ---------------------------------------------------------------------------

  predicate IsValid(record: Row) {
    RecordErrors(record) == []
  }

  /** The records that pass, in input order. */
  function ValidRecords(records: seq<Row>): (vs: seq<Row>)
    ensures |vs| <= |records|
  {
    if records == [] then []
    else
      var init := records[..|records| - 1];
      var last := records[|records| - 1];
      ValidRecords(init) + (if IsValid(last) then [last] else [])
  }

  /** A record is kept iff it is one of the input records and passes. */
  lemma {:induction false} ValidRecordsMeaning(records: seq<Row>)
    ensures forall r :: r in ValidRecords(records) <==> r in records && IsValid(r)
  {
    if records != [] {
      var init := records[..|records| - 1];
      ValidRecordsMeaning(init);
      assert records == init + [records[|records| - 1]];
    }
  }

  /** Appending a record appends it to the valid ones exactly when it passes. */
  lemma ValidRecordsSnoc(seen: seq<Row>, record: Row)
    ensures ValidRecords(seen + [record]) == ValidRecords(seen) + (if IsValid(record) then [record] else [])
  {
    assert (seen + [record])[..|seen|] == seen;
  }

  /** The number of records without a price. */
  function MissingPrices(records: seq<Row>): nat {
    if records == [] then 0
    else MissingPrices(records[..|records| - 1]) + (if Get(records[|records| - 1], "price") == "" then 1 else 0)
  }

  /** The number of records reporting error `e`. */
  function Tally(records: seq<Row>, e: ValidationError): nat {
    if records == [] then 0
    else Tally(records[..|records| - 1], e) + (if e in RecordErrors(records[|records| - 1]) then 1 else 0)
  }

  /** `[r["brand_name"] for r in valid_records]`. */
  function BrandNames(records: seq<Row>): (names: seq<string>)
    ensures |names| == |records|
    ensures forall i :: 0 <= i < |records| ==> names[i] == Get(records[i], "brand_name")
  {
    if records == [] then [] else BrandNames(records[..|records| - 1]) + [Get(records[|records| - 1], "brand_name")]
  }

  /** The keys of `ks` that occur more than once in `names`, in the order of `ks`. */
  function Repeated(ks: seq<string>, names: seq<string>): (d: seq<string>)
    ensures forall k :: k in d <==> k in ks && multiset(names)[k] > 1
    ensures |d| <= |ks|
  {
    if ks == [] then []
    else
      var init := Repeated(ks[..|ks| - 1], names);
      var k := ks[|ks| - 1];
      assert ks == ks[..|ks| - 1] + [k];
      init + (if multiset(names)[k] > 1 then [k] else [])
  }

  /**
   * `[name for name, count in Counter(brand_names).items() if count > 1]`: the counter keeps
   * its names in first-seen order.
   */
  function DuplicateNames(names: seq<string>): seq<string> {
    Repeated(MatchIndex.Keys(names, (n: string) => n), names)
  }

  /** A name is a duplicate iff it occurs more than once, and no duplicate is listed twice. */
  lemma DuplicateNamesMeaning(names: seq<string>)
    ensures forall n :: n in DuplicateNames(names) <==> multiset(names)[n] > 1
    ensures MatchIndex.Distinct(DuplicateNames(names))
  {
    var id := (n: string) => n;
    var ks := MatchIndex.Keys(names, id);
    forall n ensures n in DuplicateNames(names) <==> multiset(names)[n] > 1 {
      MatchIndex.KeysMembership(names, id, n);
      if multiset(names)[n] > 1 {
        assert n in names;
        var i :| 0 <= i < |names| && names[i] == n;
        assert id(names[i]) == n;
      }
    }
    RepeatedDistinct(ks, names);
  }

  lemma {:induction false} RepeatedDistinct(ks: seq<string>, names: seq<string>)
    requires MatchIndex.Distinct(ks)
    ensures MatchIndex.Distinct(Repeated(ks, names))
  {
    if ks != [] {
      var init := ks[..|ks| - 1];
      RepeatedDistinct(init, names);
      assert ks[|ks| - 1] !in init;
    }
  }

  datatype Stats = Stats(total: nat, valid: nat, invalid: nat, missingPrice: nat, duplicates: nat)

  datatype Report = Report(
    stats: Stats,
    validRecords: seq<Row>,
    errorCounts: map<ValidationError, nat>,
    duplicates: seq<string>)

  /** `error_counts` after the records so far: how many records reported each error. */
  ghost predicate CountsErrors(errorCounts: map<ValidationError, nat>, records: seq<Row>) {
    forall e ::
      && (e in errorCounts <==> Tally(records, e) > 0)
      && (e in errorCounts ==> errorCounts[e] == Tally(records, e))
  }

  /**
   * The loop of `main`: validate every record, keep the valid ones, count the missing prices and
   * tally the errors of the invalid ones; then count the duplicated brand names among the valid.
   */
  method ValidateRecords(records: seq<Row>) returns (report: Report)
    ensures report.stats.total == |records|
    ensures report.validRecords == ValidRecords(records)
    ensures report.stats.valid == |report.validRecords|
    ensures report.stats.valid + report.stats.invalid == |records|
    ensures report.stats.missingPrice == MissingPrices(records)
    ensures CountsErrors(report.errorCounts, records)
    ensures report.duplicates == DuplicateNames(BrandNames(report.validRecords))
    ensures report.stats.duplicates == |report.duplicates|
  {
    var valid, invalid, missingPrice := 0, 0, 0;
    var errorCounts: map<ValidationError, nat> := map[];
    var validRecords: seq<Row> := [];
    var i := 0;
    while i < |records|
      invariant 0 <= i <= |records|
      invariant validRecords == ValidRecords(records[..i])
      invariant valid == |validRecords| && valid + invalid == i
      invariant missingPrice == MissingPrices(records[..i])
      invariant CountsErrors(errorCounts, records[..i])
    {
      var record := records[i];
      MatchIndex.TakeSnoc(records, i);
      assert records[..i + 1][..i] == records[..i];
      var isValid, errors := ValidateRecord(record);
      assert ValidRecords(records[..i + 1]) == validRecords + (if isValid then [record] else []) by {
        ValidRecordsSnoc(records[..i], record);
      }
      if isValid {
        valid := valid + 1;
        validRecords := validRecords + [record];
      } else {
        invalid := invalid + 1;
        TallyStep(errorCounts, records[..i], record);
        errorCounts := TallyErrors(errorCounts, errors);
      }
      if Get(record, "price") == "" {
        missingPrice := missingPrice + 1;
      }
      i := i + 1;
    }
    assert records[..i] == records;
    var duplicates := DuplicateNames(BrandNames(validRecords));
    report := Report(Stats(|records|, valid, invalid, missingPrice, |duplicates|), validRecords, errorCounts, duplicates);
  }

  /** `counter[e]`, which is 0 for an error never counted. */
  function CountOf(counts: map<ValidationError, nat>, e: ValidationError): nat {
    if e in counts then counts[e] else 0
  }

  /** `for error in errors: error_counts[error] += 1`. */
  function Bump(counts: map<ValidationError, nat>, errors: seq<ValidationError>): map<ValidationError, nat> {
    if errors == [] then counts
    else
      var m := Bump(counts, errors[..|errors| - 1]);
      var e := errors[|errors| - 1];
      m[e := CountOf(m, e) + 1]
  }

  /** Counting a list of distinct errors adds one to each of them and leaves the rest alone. */
  lemma {:induction false} BumpMeaning(counts: map<ValidationError, nat>, errors: seq<ValidationError>)
    requires forall i, j :: 0 <= i < j < |errors| ==> errors[i] != errors[j]
    ensures forall e :: e in Bump(counts, errors) <==> e in counts || e in errors
    ensures forall e :: CountOf(Bump(counts, errors), e) == CountOf(counts, e) + (if e in errors then 1 else 0)
  {
    if errors != [] {
      var init := errors[..|errors| - 1];
      BumpMeaning(counts, init);
      assert errors == init + [errors[|errors| - 1]];
    }
  }

  /** The tally after one more record: its errors, which are distinct, are each counted once more. */
  lemma TallyStep(counts: map<ValidationError, nat>, seen: seq<Row>, record: Row)
    requires CountsErrors(counts, seen)
    ensures CountsErrors(Bump(counts, RecordErrors(record)), seen + [record])
  {
    var errors := RecordErrors(record);
    RecordErrorsMeaning(record);
    RecordErrorsOrdered(record);
    BumpMeaning(counts, errors);
    var all := seen + [record];
    assert all[..|all| - 1] == seen;
    forall e ensures Tally(all, e) == Tally(seen, e) + (if e in errors then 1 else 0) {
    }
  }

  /** The inner loop of `main`: count each error of one invalid record. */
  method TallyErrors(counts: map<ValidationError, nat>, errors: seq<ValidationError>)
    returns (errorCounts: map<ValidationError, nat>)
    ensures errorCounts == Bump(counts, errors)
  {
    errorCounts := counts;
    var k := 0;
    while k < |errors|
      invariant 0 <= k <= |errors|
      invariant errorCounts == Bump(counts, errors[..k])
    {
      var error := errors[k];
      MatchIndex.TakeSnoc(errors, k);
      assert errors[..k + 1][..k] == errors[..k];
      errorCounts := errorCounts[error := (if error in errorCounts then errorCounts[error] else 0) + 1];
      k := k + 1;
    }
    assert errors[..k] == errors;
  }
}
