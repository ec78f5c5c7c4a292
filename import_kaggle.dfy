/**
 * The Kaggle importer: a table of medical information per generic, read from one CSV file,
 * and one output record per row of the medicine CSV, its prices read with the zero-default
 * parser and its medical information looked up by generic name. Its `normalize_text` is
 * `Text.NormalizeText` and its `parse_price` is `PriceText.PriceOrZero`.
 */
module ImportKaggle {
  import opened Text
  import opened CsvRows
  import opened PriceText

  // ---------------------------------------------------------------------------
  // load_generics
  // ---------------------------------------------------------------------------

  /** The medical information kept for a generic. */
  datatype GenericInfo = GenericInfo(indication: string, description: string, sideEffects: string)

  /** The generic's name in a row of the generics file. */
  function GenericName(row: Row): string {
    NormalizeText(FirstFilled(row, ["generic_name", "name"]))
  }

  function InfoOf(row: Row): GenericInfo {
    GenericInfo(
      NormalizeText(Get(row, "indication")),
      NormalizeText(Get(row, "indication_description")),
      NormalizeText(Get(row, "side_effects_description")))
  }

  /** The key a row of the generics file is stored under: its lower-cased name. */
  function GenericKey(row: Row): string {
    Lower(GenericName(row))
  }

  /**
   * A dictionary filled row by row, each row stored under its key unless the key is empty, a
   * later row overwriting an earlier one with the same key.
   */
  function KeyedTable<R, V>(rows: seq<R>, key: R -> string, value: R -> V): map<string, V> {
    if rows == [] then map[]
    else
      var last := rows[|rows| - 1];
      var table := KeyedTable(rows[..|rows| - 1], key, value);
      if key(last) == "" then table else table[key(last) := value(last)]
  }

  /**
   * `generics` after the rows. The source skips a row whose name is empty; its lower-cased name
   * is empty exactly then.
   */
  function Generics(rows: seq<Row>): map<string, GenericInfo> {
    KeyedTable(rows, GenericKey, InfoOf)
  }

  /** `load_generics`: the loop over the rows of the generics file. */
  method LoadGenerics(rows: seq<Row>) returns (generics: map<string, GenericInfo>)
    ensures generics == Generics(rows)
  {
    generics := map[];
    var i := 0;
    while i < |rows|
      invariant i <= |rows|
      invariant generics == KeyedTable(rows[..i], GenericKey, InfoOf)
    {
      KeyedTableSnoc(rows, GenericKey, InfoOf, i);
      var name := GenericName(rows[i]);
      if name != "" {
        generics := generics[Lower(name) := InfoOf(rows[i])];
      }
      i := i + 1;
    }
    assert rows[..i] == rows;
  }

  lemma KeyedTableSnoc<R, V>(rows: seq<R>, key: R -> string, value: R -> V, i: nat)
    requires i < |rows|
    ensures KeyedTable(rows[..i + 1], key, value) ==
      var table := KeyedTable(rows[..i], key, value);
      if key(rows[i]) == "" then table else table[key(rows[i]) := value(rows[i])]
  {
    assert rows[..i + 1][..i] == rows[..i];
  }

  /** A key is in the table exactly when it is not empty and some row has it. */
  lemma {:induction false} KeyedTableKeys<R, V>(rows: seq<R>, key: R -> string, value: R -> V, k: string)
    ensures k in KeyedTable(rows, key, value) <==> k != "" && exists i :: 0 <= i < |rows| && key(rows[i]) == k
  {
    if rows != [] {
      var init := rows[..|rows| - 1];
      KeyedTableKeys(init, key, value, k);
      assert forall i :: 0 <= i < |init| ==> init[i] == rows[i];
      var last := |rows| - 1;
      if key(rows[last]) == k {
        assert 0 <= last < |rows| && key(rows[last]) == k;
      }
    }
  }

  /** The entry under a key comes from the last row with that key. */
  lemma {:induction false} KeyedTableLastWins<R, V>(rows: seq<R>, key: R -> string, value: R -> V, i: nat)
    requires i < |rows| && key(rows[i]) != ""
    requires forall j :: i < j < |rows| ==> key(rows[j]) != key(rows[i])
    ensures key(rows[i]) in KeyedTable(rows, key, value)
    ensures KeyedTable(rows, key, value)[key(rows[i])] == value(rows[i])
  {
    if i < |rows| - 1 {
      var init := rows[..|rows| - 1];
      assert init[i] == rows[i];
      assert forall j :: i < j < |init| ==> init[j] == rows[j];
      KeyedTableLastWins(init, key, value, i);
    }
  }

  /** A name is a key exactly when some row carries a non-empty name that lower-cases to it. */
  lemma GenericsKeys(rows: seq<Row>, k: string)
    ensures k in Generics(rows) <==>
      k != "" && exists i :: 0 <= i < |rows| && Lower(GenericName(rows[i])) == k
  {
    KeyedTableKeys(rows, GenericKey, InfoOf, k);
  }

  /** The entry under a name comes from the last row with that name, whatever its case. */
  lemma GenericsLastWins(rows: seq<Row>, i: nat)
    requires i < |rows| && GenericName(rows[i]) != ""
    requires forall j :: i < j < |rows| ==> Lower(GenericName(rows[j])) != Lower(GenericName(rows[i]))
    ensures Lower(GenericName(rows[i])) in Generics(rows)
    ensures Generics(rows)[Lower(GenericName(rows[i]))] == InfoOf(rows[i])
  {
    KeyedTableLastWins(rows, GenericKey, InfoOf, i);
  }

  // ---------------------------------------------------------------------------
  // import_data
  // ---------------------------------------------------------------------------

  /** A row of the output CSV. */
  datatype Medicine = Medicine(
    brandName: string,
    genericName: string,
    strength: string,
    dosageForm: string,
    manufacturer: string,
    verifiedPrice: real,
    unitPrice: real,
    packSize: string,
    indication: string,
    sideEffects: string,
    confidence: string,
    discrepancyFlag: bool)

  /** `pack_price if pack_price > 0 else unit_price`. */
  function VerifiedPrice(packPrice: real, unitPrice: real): (r: real)
    ensures packPrice > 0.0 ==> r == packPrice
    ensures packPrice <= 0.0 ==> r == unitPrice
  {
    if packPrice > 0.0 then packPrice else unitPrice
  }

  /** The record one row of the medicine file becomes, given the generics table. */
  function MedicineOf(generics: map<string, GenericInfo>, row: Row): Medicine {
    var genericName := NormalizeText(FirstFilled(row, ["generic", "generic name", "generic_name", "generic_name"]));
    var unitPrice := PriceOrZero(FirstFilled(row, ["unit price", "unit_price"]));
    var packPrice := PriceOrZero(FirstFilled(row, ["package container", "price"]));
    var key := Lower(genericName);
    Medicine(
      NormalizeText(FirstFilled(row, ["brand name", "brand_name", "name"])),
      genericName,
      NormalizeText(Get(row, "strength")),
      NormalizeText(FirstFilled(row, ["dosage form", "type"])),
      NormalizeText(FirstFilled(row, ["manufacturer", "manufacturer name"])),
      VerifiedPrice(packPrice, unitPrice),
      unitPrice,
      NormalizeText(FirstFilled(row, ["package size", "package_size"])),
      if key in generics then generics[key].indication else "",
      if key in generics then generics[key].sideEffects else "",
      "HIGH",
      false)
  }

  /** `import_data`: the loop that appends one record per row of the medicine file. */
  method ImportData(generics: map<string, GenericInfo>, rows: seq<Row>) returns (medicines: seq<Medicine>)
    ensures |medicines| == |rows|
    ensures forall i :: 0 <= i < |rows| ==> medicines[i] == MedicineOf(generics, rows[i])
  {
    medicines := AppendEach(rows, row => MedicineOf(generics, row));
  }

  /** The loop of `import_data`: one record appended per row, in order. */
  method AppendEach<B>(rows: seq<Row>, recordOf: Row -> B) returns (records: seq<B>)
    ensures |records| == |rows|
    ensures forall i :: 0 <= i < |rows| ==> records[i] == recordOf(rows[i])
  {
    records := [];
    var i := 0;
    while i < |rows|
      invariant i <= |rows|
      invariant |records| == i
      invariant forall j :: 0 <= j < i ==> records[j] == recordOf(rows[j])
    {
      records := records + [recordOf(rows[i])];
      i := i + 1;
    }
  }

  /**
   * The verified price is never negative; it is the pack price when that is positive and the
   * unit price otherwise, so it is positive exactly when one of the two is. Every record is
   * HIGH confidence without a discrepancy flag.
   */
  lemma MedicinePrices(generics: map<string, GenericInfo>, row: Row)
    ensures var m := MedicineOf(generics, row);
      var packPrice := PriceOrZero(FirstFilled(row, ["package container", "price"]));
      && m.verifiedPrice >= 0.0 && m.unitPrice >= 0.0
      && (packPrice > 0.0 ==> m.verifiedPrice == packPrice)
      && (packPrice == 0.0 ==> m.verifiedPrice == m.unitPrice)
      && (m.verifiedPrice > 0.0 <==> packPrice > 0.0 || m.unitPrice > 0.0)
      && m.confidence == "HIGH" && !m.discrepancyFlag
  {
  }

  /**
   * The medical information is the table's entry for the lower-cased generic name, and empty
   * when the table has none.
   */
  lemma MedicineInfo(generics: map<string, GenericInfo>, row: Row)
    ensures var m := MedicineOf(generics, row);
      && (Lower(m.genericName) in generics ==>
            m.indication == generics[Lower(m.genericName)].indication
            && m.sideEffects == generics[Lower(m.genericName)].sideEffects)
      && (Lower(m.genericName) !in generics ==> m.indication == "" && m.sideEffects == "")
  {
  }

  /**
   * End to end: a medicine whose generic name matches, ignoring case, the last row of the
   * generics file that carries that name gets that row's indication and side effects.
   */
  lemma InfoFromLastGenericRow(genericRows: seq<Row>, row: Row, i: nat)
    requires i < |genericRows| && GenericName(genericRows[i]) != ""
    requires forall j :: i < j < |genericRows| ==>
      Lower(GenericName(genericRows[j])) != Lower(GenericName(genericRows[i]))
    requires Lower(MedicineOf(map[], row).genericName) == Lower(GenericName(genericRows[i]))
    ensures MedicineOf(Generics(genericRows), row).indication == NormalizeText(Get(genericRows[i], "indication"))
    ensures MedicineOf(Generics(genericRows), row).sideEffects == NormalizeText(Get(genericRows[i], "side_effects_description"))
  {
    GenericsLastWins(genericRows, i);
  }
}
