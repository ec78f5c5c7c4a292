/**
 * `verify_and_merge`: one verified record per match key. Medex keys come first, in
 * first-seen order, each built from its first Medex record and priced against the
 * DGDA records of the same key; the keys seen only in DGDA follow, built from their
 * first DGDA record. Every flagged Medex key also yields one REVIEW row.
 */
module Merge {
  import opened Wrappers
  import opened Text
  import opened CrossVerify
  import opened MatchIndex
  import opened Discrepancy

  /** The match key as a function value, for the generic index. */
  const KeyOf: MedicineRecord -> string := (r: MedicineRecord) => r.MatchKey()

  datatype Confidence = High | Medium | Low

  /** `price_sources`: the Medex unit price (absent for DGDA-only keys) and the DGDA price, if any. */
  datatype PriceSources = PriceSources(medex: Option<real>, dgda: Option<real>)

  /** `discrepancy_details`: empty, or the deviation that `f"{deviation:.1f}% deviation"` prints. */
  datatype Details = NoDetails | DeviationNote(percent: real)

  datatype VerifiedMedicine = VerifiedMedicine(
    brandName: string,
    genericName: string,
    strength: string,
    dosageForm: string,
    manufacturer: string,
    verifiedPrice: real,
    unitPrice: real,
    packSize: string,
    indication: string,
    sideEffects: string,
    confidence: Confidence,
    priceSources: PriceSources,
    discrepancyFlag: bool,
    discrepancyDetails: Details)

  /** One row of the discrepancy report. */
  datatype DiscrepancyRow = DiscrepancyRow(
    brandName: string,
    strength: string,
    medexPrice: real,
    dgdaPrice: real,
    deviationPercent: real,
    actionRequired: string)

  /** HIGH with two or more prices that agree, MEDIUM with two or more that do not, LOW otherwise. */
  function Classify(entries: nat, flagged: bool): Confidence {
    if entries >= 2 && !flagged then High
    else if entries >= 2 then Medium
    else Low
  }

  function UnitPrices(records: seq<MedicineRecord>): (ps: seq<real>)
    ensures |ps| == |records|
    ensures forall i :: 0 <= i < |records| ==> ps[i] == records[i].unitPrice
  {
    seq(|records|, i requires 0 <= i < |records| => records[i].unitPrice)
  }

  /** The DGDA price left in `price_sources`: every positive match overwrites the previous one. */
  function LastPositive(prices: seq<real>): (r: Option<real>)
    ensures r.None? <==> Positives(prices) == []
    ensures r.Some? ==> r.value == Positives(prices)[|Positives(prices)| - 1]
  {
    if prices == [] then None
    else
      var last := prices[|prices| - 1];
      if last > 0.0 then Some(last) else LastPositive(prices[..|prices| - 1])
  }

  /** The row of a key first seen in Medex, given its Medex record and the DGDA records of its key. */
  function MedexVerdict(r: MedicineRecord, matches: seq<MedicineRecord>): VerifiedMedicine {
    var dgdaPrices := UnitPrices(matches);
    var allPrices := [r.unitPrice] + Positives(dgdaPrices);
    var sources := PriceSources(Some(r.unitPrice), LastPositive(dgdaPrices));
    var check := CalculatePriceDiscrepancy(allPrices);
    var verifiedPrice := if sources.dgda.Some? && sources.dgda.value > 0.0 then sources.dgda.value else r.unitPrice;
    VerifiedMedicine(
      NormalizeBrand(r.brandName), r.genericName, NormalizeStrength(r.strength), r.dosageForm, r.manufacturer,
      Round2(verifiedPrice), Round2(r.unitPrice), r.packSize, r.indication, r.sideEffects,
      Classify(|allPrices|, check.flagged), sources, check.flagged,
      if check.flagged then DeviationNote(check.deviationPercent) else NoDetails)
  }

  /** The row of a key seen only in DGDA, built from its first DGDA record. */
  function DgdaOnlyVerdict(r: MedicineRecord): VerifiedMedicine {
    VerifiedMedicine(
      NormalizeBrand(r.brandName), r.genericName, NormalizeStrength(r.strength), r.dosageForm, r.manufacturer,
      Round2(r.unitPrice), Round2(r.unitPrice), "", "", "",
      Low, PriceSources(None, Some(r.unitPrice)), false, NoDetails)
  }

  /** The report row of a flagged record: `price_sources.get(..., 0)` for the two prices. */
  function ReviewRow(v: VerifiedMedicine): DiscrepancyRow {
    var deviation := match v.discrepancyDetails
      case DeviationNote(p) => p
      case NoDetails => 0.0;
    DiscrepancyRow(v.brandName, v.strength, v.priceSources.medex.GetOr(0.0), v.priceSources.dgda.GetOr(0.0), deviation, "REVIEW")
  }

  /** One REVIEW row per flagged record, in output order. */
  function ReviewRows(vs: seq<VerifiedMedicine>): seq<DiscrepancyRow> {
    if vs == [] then []
    else
      var last := vs[|vs| - 1];
      ReviewRows(vs[..|vs| - 1]) + (if last.discrepancyFlag then [ReviewRow(last)] else [])
  }

  /** The rows of the Medex keys, one per first record. */
  function MedexRows(firsts: seq<MedicineRecord>, dgda: seq<MedicineRecord>): seq<VerifiedMedicine> {
    if firsts == [] then []
    else
      var last := firsts[|firsts| - 1];
      MedexRows(firsts[..|firsts| - 1], dgda) + [MedexVerdict(last, Bucket(dgda, KeyOf, KeyOf(last)))]
  }

  /** The rows of the DGDA keys not in `medexKeys`, one per first record. */
  function DgdaOnlyRows(firsts: seq<MedicineRecord>, medexKeys: seq<string>): seq<VerifiedMedicine> {
    if firsts == [] then []
    else
      var last := firsts[|firsts| - 1];
      DgdaOnlyRows(firsts[..|firsts| - 1], medexKeys) + (if KeyOf(last) in medexKeys then [] else [DgdaOnlyVerdict(last)])
  }

  /** What `verify_and_merge` returns as its verified list. */
  function MergedRows(medex: seq<MedicineRecord>, dgda: seq<MedicineRecord>): seq<VerifiedMedicine> {
    MedexRows(FirstByKey(medex, KeyOf), dgda) + DgdaOnlyRows(FirstByKey(dgda, KeyOf), Keys(medex, KeyOf))
  }

  /** The price-collecting loop: the Medex unit price, then every positive DGDA match. */
  method CollectPrices(record: MedicineRecord, matches: seq<MedicineRecord>)
    returns (priceSources: PriceSources, allPrices: seq<real>)
    ensures allPrices == [record.unitPrice] + Positives(UnitPrices(matches))
    ensures priceSources == PriceSources(Some(record.unitPrice), LastPositive(UnitPrices(matches)))
  {
    priceSources := PriceSources(Some(record.unitPrice), None);
    allPrices := [record.unitPrice];
    var j := 0;
    while j < |matches|
      invariant 0 <= j <= |matches|
      invariant allPrices == [record.unitPrice] + Positives(UnitPrices(matches)[..j])
      invariant priceSources == PriceSources(Some(record.unitPrice), LastPositive(UnitPrices(matches)[..j]))
    {
      var dgda := matches[j];
      assert UnitPrices(matches)[..j + 1] == UnitPrices(matches)[..j] + [dgda.unitPrice];
      PositivesSnoc(UnitPrices(matches)[..j], dgda.unitPrice);
      if dgda.unitPrice > 0.0 {
        priceSources := priceSources.(dgda := Some(dgda.unitPrice));
        allPrices := allPrices + [dgda.unitPrice];
      }
      j := j + 1;
    }
    assert UnitPrices(matches)[..j] == UnitPrices(matches);
  }

  /** The body of the Medex loop for a key not yet processed: price, classify and build the row. */
  method MergeMedexRecord(record: MedicineRecord, matches: seq<MedicineRecord>)
    returns (v: VerifiedMedicine, hasDiscrepancy: bool)
    ensures v == MedexVerdict(record, matches)
    ensures hasDiscrepancy == v.discrepancyFlag
  {
    var priceSources, allPrices := CollectPrices(record, matches);
    var check := CalculatePriceDiscrepancy(allPrices);
    var confidence := Classify(|allPrices|, check.flagged);
    var verifiedPrice :=
      if priceSources.dgda.Some? && priceSources.dgda.value > 0.0 then priceSources.dgda.value else record.unitPrice;
    v := VerifiedMedicine(
      NormalizeBrand(record.brandName), record.genericName, NormalizeStrength(record.strength),
      record.dosageForm, record.manufacturer, Round2(verifiedPrice), Round2(record.unitPrice),
      record.packSize, record.indication, record.sideEffects, confidence, priceSources, check.flagged,
      if check.flagged then DeviationNote(check.deviationPercent) else NoDetails);
    hasDiscrepancy := check.flagged;
  }

  /** The body of the DGDA-only loop: a LOW row from the first DGDA record of the key. */
  method DgdaOnlyRecord(first: MedicineRecord) returns (v: VerifiedMedicine)
    ensures v == DgdaOnlyVerdict(first)
  {
    v := VerifiedMedicine(
      NormalizeBrand(first.brandName), first.genericName, NormalizeStrength(first.strength),
      first.dosageForm, first.manufacturer, Round2(first.unitPrice), Round2(first.unitPrice),
      "", "", "", Low, PriceSources(None, Some(first.unitPrice)), false, NoDetails);
  }

  /** `verify_and_merge`: the Medex pass, then the DGDA-only pass over the DGDA index. */
  method VerifyAndMerge(medex: seq<MedicineRecord>, dgda: seq<MedicineRecord>)
    returns (verified: seq<VerifiedMedicine>, discrepancies: seq<DiscrepancyRow>)
    ensures verified == MergedRows(medex, dgda)
    ensures discrepancies == ReviewRows(verified)
  {
    var dgdaIndex := BuildMatchIndex(dgda, KeyOf);
    var processed;
    verified, discrepancies, processed := MergeMedexKeys(medex, dgda, dgdaIndex);
    var medexRows := verified;
    verified := AddDgdaOnlyKeys(verified, processed, dgda, dgdaIndex, Keys(medex, KeyOf));
    ReviewRowsSkipDgdaOnly(medexRows, FirstByKey(dgda, KeyOf), Keys(medex, KeyOf));
  }

  /** The loop over the Medex records: the first record of each key makes its row. */
  method MergeMedexKeys(medex: seq<MedicineRecord>, ghost dgda: seq<MedicineRecord>, dgdaIndex: Index<MedicineRecord>)
    returns (verified: seq<VerifiedMedicine>, discrepancies: seq<DiscrepancyRow>, processed: set<string>)
    requires Indexes(dgdaIndex, dgda, KeyOf)
    ensures verified == MedexRows(FirstByKey(medex, KeyOf), dgda)
    ensures discrepancies == ReviewRows(verified)
    ensures forall k :: k in processed <==> k in Keys(medex, KeyOf)
  {
    processed := {};
    verified := [];
    discrepancies := [];
    var i := 0;
    while i < |medex|
      invariant 0 <= i <= |medex|
      invariant forall k :: k in processed <==> k in Keys(medex[..i], KeyOf)
      invariant verified == MedexRows(FirstByKey(medex[..i], KeyOf), dgda)
      invariant discrepancies == ReviewRows(verified)
    {
      var record := medex[i];
      var key := record.MatchKey();
      TakeSnoc(medex, i);
      KeysSnoc(medex[..i], KeyOf, record);
      FirstByKeySnoc(medex[..i], KeyOf, record);
      if key !in processed {
        processed := processed + {key};
        var matches := dgdaIndex.Get(key);
        GetIsBucket(dgdaIndex, dgda, KeyOf, key);
        var v, hasDiscrepancy := MergeMedexRecord(record, matches);
        MedexRowsSnoc(FirstByKey(medex[..i], KeyOf), dgda, record);
        ReviewRowsSnoc(verified, v);
        verified := verified + [v];
        if hasDiscrepancy {
          discrepancies := discrepancies + [ReviewRow(v)];
        }
      }
      i := i + 1;
    }
    assert medex[..i] == medex;
  }

  /** The loop over the DGDA index: a row for every key the Medex pass did not produce. */
  method AddDgdaOnlyKeys(
    rows: seq<VerifiedMedicine>, processed: set<string>, ghost dgda: seq<MedicineRecord>,
    dgdaIndex: Index<MedicineRecord>, ghost medexKeys: seq<string>)
    returns (verified: seq<VerifiedMedicine>)
    requires Indexes(dgdaIndex, dgda, KeyOf)
    requires forall k :: k in processed <==> k in medexKeys
    ensures verified == rows + DgdaOnlyRows(FirstByKey(dgda, KeyOf), medexKeys)
  {
    verified := rows;
    var firsts := FirstByKey(dgda, KeyOf);
    FirstByKeyLength(dgda, KeyOf);
    var j := 0;
    while j < |dgdaIndex.keys|
      invariant 0 <= j <= |dgdaIndex.keys|
      invariant verified == rows + DgdaOnlyRows(firsts[..j], medexKeys)
    {
      var key := dgdaIndex.keys[j];
      FirstByKeyAt(dgda, KeyOf, j);
      assert key in dgdaIndex.buckets && dgdaIndex.buckets[key] == Bucket(dgda, KeyOf, key);
      DgdaOnlyStep(rows, verified, firsts, j, medexKeys);
      if key !in processed {
        var first := dgdaIndex.buckets[key][0];
        var v := DgdaOnlyRecord(first);
        verified := verified + [v];
      }
      j := j + 1;
    }
    assert firsts[..j] == firsts;
  }

  /** One step of the DGDA-only loop: the `j`-th first record adds a row exactly when its key is new. */
  lemma DgdaOnlyStep(
    rows: seq<VerifiedMedicine>, verified: seq<VerifiedMedicine>, firsts: seq<MedicineRecord>, j: nat, medexKeys: seq<string>)
    requires j < |firsts|
    requires verified == rows + DgdaOnlyRows(firsts[..j], medexKeys)
    ensures KeyOf(firsts[j]) in medexKeys ==> verified == rows + DgdaOnlyRows(firsts[..j + 1], medexKeys)
    ensures KeyOf(firsts[j]) !in medexKeys ==>
      verified + [DgdaOnlyVerdict(firsts[j])] == rows + DgdaOnlyRows(firsts[..j + 1], medexKeys)
  {
    TakeSnoc(firsts, j);
    DgdaOnlyRowsSnoc(firsts[..j], medexKeys, firsts[j]);
  }

  /** DGDA-only rows are never flagged, so they add nothing to the report. */
  lemma ReviewRowsSkipDgdaOnly(rows: seq<VerifiedMedicine>, firsts: seq<MedicineRecord>, medexKeys: seq<string>)
    ensures ReviewRows(rows + DgdaOnlyRows(firsts, medexKeys)) == ReviewRows(rows)
  {
    ReviewRowsConcat(rows, DgdaOnlyRows(firsts, medexKeys));
    DgdaOnlyRowsUnflagged(firsts, medexKeys);
  }

  lemma {:induction false} ReviewRowsConcat(a: seq<VerifiedMedicine>, b: seq<VerifiedMedicine>)
    ensures ReviewRows(a + b) == ReviewRows(a) + ReviewRows(b)
  {
    if b == [] {
      assert a + b == a;
    } else {
      var init := b[..|b| - 1];
      var last := b[|b| - 1];
      assert a + b == (a + init) + [last];
      assert b == init + [last];
      ReviewRowsConcat(a, init);
      ReviewRowsSnoc(a + init, last);
      ReviewRowsSnoc(init, last);
    }
  }

  lemma {:induction false} DgdaOnlyRowsUnflagged(firsts: seq<MedicineRecord>, medexKeys: seq<string>)
    ensures ReviewRows(DgdaOnlyRows(firsts, medexKeys)) == []
  {
    if firsts != [] {
      var init := firsts[..|firsts| - 1];
      var last := firsts[|firsts| - 1];
      DgdaOnlyRowsUnflagged(init, medexKeys);
      var tail := if KeyOf(last) in medexKeys then [] else [DgdaOnlyVerdict(last)];
      assert DgdaOnlyRows(firsts, medexKeys) == DgdaOnlyRows(init, medexKeys) + tail;
      assert ReviewRows(tail) == [];
      ReviewRowsConcat(DgdaOnlyRows(init, medexKeys), tail);
    }
  }

  lemma ReviewRowsSnoc(vs: seq<VerifiedMedicine>, v: VerifiedMedicine)
    ensures ReviewRows(vs + [v]) == ReviewRows(vs) + (if v.discrepancyFlag then [ReviewRow(v)] else [])
  {
    assert (vs + [v])[..|vs|] == vs;
  }

  lemma MedexRowsSnoc(firsts: seq<MedicineRecord>, dgda: seq<MedicineRecord>, r: MedicineRecord)
    ensures MedexRows(firsts + [r], dgda) == MedexRows(firsts, dgda) + [MedexVerdict(r, Bucket(dgda, KeyOf, KeyOf(r)))]
  {
    assert (firsts + [r])[..|firsts|] == firsts;
  }

  lemma DgdaOnlyRowsSnoc(firsts: seq<MedicineRecord>, medexKeys: seq<string>, r: MedicineRecord)
    ensures DgdaOnlyRows(firsts + [r], medexKeys) ==
      DgdaOnlyRows(firsts, medexKeys) + (if KeyOf(r) in medexKeys then [] else [DgdaOnlyVerdict(r)])
  {
    assert (firsts + [r])[..|firsts|] == firsts;
  }

  // ---------------------------------------------------------------------------
  // One row per key, in order, first record winning
  // ---------------------------------------------------------------------------

  lemma {:induction false} MedexRowsAt(firsts: seq<MedicineRecord>, dgda: seq<MedicineRecord>, j: nat)
    ensures |MedexRows(firsts, dgda)| == |firsts|
    ensures j < |firsts| ==> MedexRows(firsts, dgda)[j] == MedexVerdict(firsts[j], Bucket(dgda, KeyOf, KeyOf(firsts[j])))
  {
    if firsts != [] {
      var init := firsts[..|firsts| - 1];
      var last := firsts[|firsts| - 1];
      MedexRowsAt(init, dgda, j);
      var row := MedexVerdict(last, Bucket(dgda, KeyOf, KeyOf(last)));
      assert MedexRows(firsts, dgda) == MedexRows(init, dgda) + [row];
      if j < |init| {
        assert firsts[j] == init[j];
      }
    }
  }

  lemma {:induction false} DgdaOnlyRowsAt(firsts: seq<MedicineRecord>, medexKeys: seq<string>, j: nat)
    ensures |DgdaOnlyRows(firsts, medexKeys)| == |Fresh(firsts, KeyOf, medexKeys)|
    ensures j < |Fresh(firsts, KeyOf, medexKeys)| ==>
      DgdaOnlyRows(firsts, medexKeys)[j] == DgdaOnlyVerdict(Fresh(firsts, KeyOf, medexKeys)[j])
  {
    if firsts != [] {
      var init := firsts[..|firsts| - 1];
      var last := firsts[|firsts| - 1];
      DgdaOnlyRowsAt(init, medexKeys, j);
      var tail := if KeyOf(last) in medexKeys then [] else [DgdaOnlyVerdict(last)];
      var added := if KeyOf(last) in medexKeys then [] else [last];
      assert DgdaOnlyRows(firsts, medexKeys) == DgdaOnlyRows(init, medexKeys) + tail;
      assert Fresh(firsts, KeyOf, medexKeys) == Fresh(init, KeyOf, medexKeys) + added;
    }
  }

  /** `verify_and_merge` emits exactly one record per distinct key of Medex and DGDA together. */
  lemma MergedRowCount(medex: seq<MedicineRecord>, dgda: seq<MedicineRecord>)
    ensures |MergedRows(medex, dgda)| == |Keys(medex + dgda, KeyOf)|
  {
    MedexRowsAt(FirstByKey(medex, KeyOf), dgda, 0);
    FirstByKeyLength(medex, KeyOf);
    DgdaOnlyRowsAt(FirstByKey(dgda, KeyOf), Keys(medex, KeyOf), 0);
    FreshFirsts(dgda, KeyOf, Keys(medex, KeyOf));
    KeysAppend(medex, dgda, KeyOf);
  }

  /**
   * The `j`-th Medex key, in first-seen order, gives the `j`-th row: built from the first Medex
   * record of that key and priced against every DGDA record of that key.
   */
  lemma MergedMedexRow(medex: seq<MedicineRecord>, dgda: seq<MedicineRecord>, j: nat)
    requires j < |Keys(medex, KeyOf)|
    ensures j < |MergedRows(medex, dgda)|
    ensures Bucket(medex, KeyOf, Keys(medex, KeyOf)[j]) != []
    ensures var k := Keys(medex, KeyOf)[j];
      MergedRows(medex, dgda)[j] == MedexVerdict(Bucket(medex, KeyOf, k)[0], Bucket(dgda, KeyOf, k))
  {
    FirstByKeyAt(medex, KeyOf, j);
    MedexRowsAt(FirstByKey(medex, KeyOf), dgda, j);
  }

  /**
   * Every later row belongs to a key seen only in DGDA, in first-seen order, and is built
   * from the first DGDA record of that key.
   */
  lemma MergedDgdaOnlyRow(medex: seq<MedicineRecord>, dgda: seq<MedicineRecord>, j: nat)
    requires |Keys(medex, KeyOf)| <= j < |Keys(medex + dgda, KeyOf)|
    ensures j < |MergedRows(medex, dgda)|
    ensures var k := Keys(medex + dgda, KeyOf)[j];
      && k !in Keys(medex, KeyOf)
      && Bucket(dgda, KeyOf, k) != []
      && MergedRows(medex, dgda)[j] == DgdaOnlyVerdict(Bucket(dgda, KeyOf, k)[0])
    ensures var v := MergedRows(medex, dgda)[j];
      && v.confidence == Low
      && !v.discrepancyFlag
      && v.packSize == "" && v.indication == "" && v.sideEffects == ""
      && v.priceSources.medex.None?
  {
    var mk := Keys(medex, KeyOf);
    var n := |mk|;
    KeysAppend(medex, dgda, KeyOf);
    FreshFirstsAt(dgda, KeyOf, mk, j - n);
    FirstByKeyLength(medex, KeyOf);
    MedexRowsAt(FirstByKey(medex, KeyOf), dgda, 0);
    DgdaOnlyRowsAt(FirstByKey(dgda, KeyOf), mk, j - n);
    MergedRowCount(medex, dgda);
  }

  // ---------------------------------------------------------------------------
  // The precedence policy for a Medex key
  // ---------------------------------------------------------------------------

  /** With no positive DGDA price, the only entry is the Medex price, which never deviates from itself. */
  lemma {:induction false} PricesOfKey(r: MedicineRecord, matches: seq<MedicineRecord>)
    ensures var dgdaPrices := Positives(UnitPrices(matches));
      CalculatePriceDiscrepancy([r.unitPrice] + dgdaPrices).flagged ==> dgdaPrices != []
  {
    var dgdaPrices := Positives(UnitPrices(matches));
    PositivesConcat([r.unitPrice], dgdaPrices);
    PositivesOfPositives(dgdaPrices);
    assert Positives([r.unitPrice]) == (if r.unitPrice > 0.0 then [r.unitPrice] else []) by {
      PositivesSnoc([], r.unitPrice);
    }
    FlagNeedsTwoPrices([r.unitPrice] + dgdaPrices);
  }

  /**
   * DGDA is authoritative for price and Medex for the medical fields. Confidence is HIGH with a
   * positive DGDA price and no discrepancy, MEDIUM with one and a discrepancy, LOW without one.
   */
  lemma MedexVerdictFacts(r: MedicineRecord, matches: seq<MedicineRecord>)
    ensures var v := MedexVerdict(r, matches);
      var dgdaPrices := Positives(UnitPrices(matches));
      && (v.confidence == High <==> dgdaPrices != [] && !v.discrepancyFlag)
      && (v.confidence == Medium <==> dgdaPrices != [] && v.discrepancyFlag)
      && (v.confidence == Low <==> dgdaPrices == [])
      && v.priceSources.medex == Some(r.unitPrice)
      && (dgdaPrices == [] ==> v.priceSources.dgda.None? && v.verifiedPrice == Round2(r.unitPrice))
      && (dgdaPrices != [] ==>
            var last := dgdaPrices[|dgdaPrices| - 1];
            v.priceSources.dgda == Some(last) && v.verifiedPrice == Round2(last))
      && v.unitPrice == Round2(r.unitPrice)
      && v.genericName == r.genericName && v.dosageForm == r.dosageForm && v.manufacturer == r.manufacturer
      && v.packSize == r.packSize && v.indication == r.indication && v.sideEffects == r.sideEffects
  {
    PricesOfKey(r, matches);
  }

  /**
   * A flagged key is one whose positive prices, the Medex price and every positive DGDA match,
   * include one more than 10% away from their mean.
   */
  lemma MedexFlagMeaning(r: MedicineRecord, matches: seq<MedicineRecord>)
    ensures var v := MedexVerdict(r, matches);
      var prices := Positives([r.unitPrice] + UnitPrices(matches));
      var avg := CalculatePriceDiscrepancy([r.unitPrice] + Positives(UnitPrices(matches))).average;
      v.discrepancyFlag <==>
        && prices != [] && avg > 0.0
        && exists i :: 0 <= i < |prices| && RelDev(prices[i], avg) > PriceTolerance
  {
    var dgdaPrices := Positives(UnitPrices(matches));
    PositivesConcat([r.unitPrice], UnitPrices(matches));
    PositivesConcat([r.unitPrice], dgdaPrices);
    PositivesOfPositives(dgdaPrices);
    FlagMeaning([r.unitPrice] + dgdaPrices);
  }

  /** A Medex price of 0 with one positive DGDA price still counts two entries, so the key is HIGH. */
  lemma ZeroMedexPriceStillHigh(r: MedicineRecord, d: MedicineRecord)
    requires r.unitPrice == 0.0 && d.unitPrice > 0.0
    ensures MedexVerdict(r, [d]).confidence == High
    ensures MedexVerdict(r, [d]).verifiedPrice == Round2(d.unitPrice)
  {
    var p := d.unitPrice;
    var prices := UnitPrices([d]);
    assert prices == [p];
    assert Positives(prices) == [p] by { PositivesSnoc([], p); assert [] + [p] == [p]; }
    assert LastPositive(prices) == Some(p);
    var all := [r.unitPrice] + Positives(prices);
    assert |all| == 2;
    assert !CalculatePriceDiscrepancy(all).flagged by { OnePositiveOfTwo(p); assert all == [0.0, p]; }
  }

  /** A zero price beside one positive price leaves a single valid price, which is never flagged. */
  lemma OnePositiveOfTwo(p: real)
    requires p > 0.0
    ensures !CalculatePriceDiscrepancy([0.0, p]).flagged
  {
    assert Positives([0.0]) == [] by { PositivesSnoc([], 0.0); assert [] + [0.0] == [0.0]; }
    assert Positives([0.0, p]) == [p] by { PositivesSnoc([0.0], p); assert [0.0] + [p] == [0.0, p]; }
    FlagNeedsTwoPrices([0.0, p]);
  }

  // ---------------------------------------------------------------------------
  // The discrepancy report
  // ---------------------------------------------------------------------------

  /** The flagged records, in output order. */
  function Flagged(vs: seq<VerifiedMedicine>): (fs: seq<VerifiedMedicine>)
    ensures forall v :: v in fs <==> v in vs && v.discrepancyFlag
  {
    if vs == [] then []
    else
      var init := vs[..|vs| - 1];
      assert vs == init + [vs[|vs| - 1]];
      Flagged(init) + (if vs[|vs| - 1].discrepancyFlag then [vs[|vs| - 1]] else [])
  }

  /**
   * The report holds exactly one REVIEW row per flagged record, in output order, carrying its
   * brand, strength, both prices and its deviation.
   */
  lemma {:induction false} ReviewRowsMeaning(vs: seq<VerifiedMedicine>)
    ensures |ReviewRows(vs)| == |Flagged(vs)|
    ensures forall i :: 0 <= i < |Flagged(vs)| ==>
      var v := Flagged(vs)[i];
      var d := ReviewRows(vs)[i];
      && d.actionRequired == "REVIEW"
      && d.brandName == v.brandName && d.strength == v.strength
      && d.medexPrice == v.priceSources.medex.GetOr(0.0)
      && d.dgdaPrice == v.priceSources.dgda.GetOr(0.0)
      && (v.discrepancyDetails.DeviationNote? ==> d.deviationPercent == v.discrepancyDetails.percent)
  {
    if vs != [] {
      var init := vs[..|vs| - 1];
      var last := vs[|vs| - 1];
      ReviewRowsMeaning(init);
      var tail := if last.discrepancyFlag then [last] else [];
      assert Flagged(vs) == Flagged(init) + tail;
      assert ReviewRows(vs) == ReviewRows(init) + (if last.discrepancyFlag then [ReviewRow(last)] else []);
    }
  }

  /** A flagged Medex row always has a DGDA price, so its report row shows both real prices. */
  lemma FlaggedMedexReview(r: MedicineRecord, matches: seq<MedicineRecord>)
    requires MedexVerdict(r, matches).discrepancyFlag
    ensures var v := MedexVerdict(r, matches);
      var dgdaPrices := Positives(UnitPrices(matches));
      && dgdaPrices != []
      && ReviewRow(v).medexPrice == r.unitPrice
      && ReviewRow(v).dgdaPrice == dgdaPrices[|dgdaPrices| - 1]
      && ReviewRow(v).deviationPercent > 100.0 * PriceTolerance
  {
    MedexVerdictFacts(r, matches);
    PricesOfKey(r, matches);
  }
}
