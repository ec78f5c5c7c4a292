/**
 * The SQLite database builder. The generics and manufacturers tables are get-or-create tables of
 * unique names, whose row id is the name's position plus one (the database is rebuilt from
 * scratch, so AUTOINCREMENT hands out 1, 2, 3, ...). Every accepted record becomes a brand row
 * pointing at its generic and, when it names one, its manufacturer.
 */
module BuildDb {
  import opened Wrappers
  import opened Text
  import opened CsvRows
  import opened MatchIndex

  // ---------------------------------------------------------------------------
  // Prices
  // ---------------------------------------------------------------------------

  /** What `parse_price` may be handed: `None`, a number, or a string. */
  datatype PriceValue = Absent | Number(x: real) | Str(s: string)

  /** `record.get(column)`: the cell's text, or `None` when the file has no such column. */
  function Cell(row: Row, column: string): PriceValue {
    if column in row then Str(row[column]) else Absent
  }

  /**
   * `parse_price`: a positive number is kept; a non-empty string keeps only its digits and
   * dots and is read as a decimal, and is `None` when that text is empty or malformed.
   */
  function ParsePrice(v: PriceValue): (r: Option<real>)
    ensures r.Some? ==> r.value >= 0.0
    ensures v.Absent? ==> r.None?
    ensures v.Number? ==> (r.Some? <==> v.x > 0.0) && (r.Some? ==> r.value == v.x)
    ensures v.Str? ==>
      var cleaned := KeepDigitsAndDots(v.s);
      (r.Some? <==> HasDigit(cleaned) && CountChar(cleaned, '.') <= 1)
  {
    match v
    case Absent => None
    case Number(x) => if x > 0.0 then Some(x) else None
    case Str(s) =>
      if s == "" then None
      else
        var cleaned := KeepDigitsAndDots(s);
        if cleaned == "" then None else ParseDecimal(cleaned)
  }

  /** Currency signs, thousands separators and other noise around the digits do not matter. */
  lemma ParsePriceIgnoresNoise(s: string)
    ensures ParsePrice(Str(s)) == ParsePrice(Str(KeepDigitsAndDots(s)))
  {
  }

  /**
   * A number zero is no price, but the text "0" is a price of zero; a missing or empty cell
   * is no price.
   */
  lemma ParsePriceZero()
    ensures ParsePrice(Number(0.0)) == None
    ensures ParsePrice(Str("0")) == Some(0.0)
    ensures ParsePrice(Str("")) == None
    ensures ParsePrice(Absent) == None
  {
    assert AllDigits("0");
    assert DigitsValue("0") == 10 * DigitsValue([]) + DigitValue('0');
  }

  /** Python's `a or b` on two parsed prices: `a` unless it is `None` or zero. */
  function OrElse(a: Option<real>, b: Option<real>): Option<real> {
    if a.Some? && a.value != 0.0 then a else b
  }

  /** `parse_price(record.get("verified_price")) or parse_price(record.get("price"))`. */
  function PriceOf(record: Row): Option<real> {
    OrElse(ParsePrice(Cell(record, "verified_price")), ParsePrice(Cell(record, "price")))
  }

  /** `parse_price(record.get("unit_price")) or price`. */
  function UnitPriceOf(record: Row): Option<real> {
    OrElse(ParsePrice(Cell(record, "unit_price")), PriceOf(record))
  }

  /**
   * The verified price wins when it parses to a positive amount; otherwise the plain price
   * column decides, and when neither parses there is no price.
   */
  lemma PriceChoice(record: Row)
    ensures var v := ParsePrice(Cell(record, "verified_price"));
      v.Some? && v.value > 0.0 ==> PriceOf(record) == v
    ensures var v := ParsePrice(Cell(record, "verified_price"));
      v.None? || v.value == 0.0 ==> PriceOf(record) == ParsePrice(Cell(record, "price"))
    ensures PriceOf(record).Some? ==> PriceOf(record).value >= 0.0
  {
  }

  /**
   * The unit price falls back to the chosen price, and is a positive unit price whenever the
   * unit-price column parses to one.
   */
  lemma UnitPriceChoice(record: Row)
    ensures var u := ParsePrice(Cell(record, "unit_price"));
      u.Some? && u.value > 0.0 ==> UnitPriceOf(record) == u
    ensures var u := ParsePrice(Cell(record, "unit_price"));
      u.None? || u.value == 0.0 ==> UnitPriceOf(record) == PriceOf(record)
    ensures PriceOf(record).None? && UnitPriceOf(record).Some? ==> UnitPriceOf(record).value > 0.0
  {
  }

  // ---------------------------------------------------------------------------
  // Get-or-create tables
  // ---------------------------------------------------------------------------

  /** `SELECT id FROM ... WHERE name = ?`: one plus the first position of `name`, if any. */
  function RowId(names: seq<string>, name: string): (id: Option<nat>)
    ensures id.None? <==> name !in names
    ensures id.Some? ==> 1 <= id.value <= |names| && names[id.value - 1] == name
    ensures id.Some? ==> forall j :: 0 <= j < id.value - 1 ==> names[j] != name
  {
    if names == [] then None
    else if names[0] == name then Some(1)
    else
      match RowId(names[1..], name)
      case None => None
      case Some(k) => Some(k + 1)
  }

  /** Every row of a table of unique names is found by its own name. */
  lemma RowIdOfRow(names: seq<string>, k: nat)
    requires Distinct(names) && k < |names|
    ensures RowId(names, names[k]) == Some(k + 1)
  {
  }

  /** Adding a row leaves every earlier name's id alone, and the new name gets the last id. */
  lemma RowIdSnoc(names: seq<string>, name: string, n: string)
    ensures n in names ==> RowId(names + [name], n) == RowId(names, n)
    ensures n !in names && n == name ==> RowId(names + [name], n) == Some(|names| + 1)
    ensures n != name ==> RowId(names + [name], n) == RowId(names, n)
  {
    var ext := names + [name];
    assert forall j :: 0 <= j < |names| ==> ext[j] == names[j];
    if n in names {
      assert ext[RowId(names, n).value - 1] == n;
    }
  }

  /** The manufacturers table: unique names, in insertion order. */
  class NameTable {
    /** The row with id `i + 1` holds `names[i]`. */
    var names: seq<string>

    predicate Valid()
      reads this
    {
      Distinct(names)
    }

    constructor ()
      ensures names == [] && Valid()
    {
      names := [];
    }

    /** `get_or_create_manufacturer`: the id of `name`, adding a row when it is new. */
    method GetOrCreate(name: string) returns (id: nat)
      requires Valid()
      modifies this
      ensures Valid()
      ensures name in old(names) ==> names == old(names)
      ensures name !in old(names) ==> names == old(names) + [name]
      ensures RowId(names, name) == Some(id)
    {
      var found := RowId(names, name);
      if found.Some? {
        id := found.value;
      } else {
        RowIdSnoc(names, name, name);
        names := names + [name];
        id := |names|;
      }
    }
  }

  /** Asking twice for the same manufacturer gives the same id and adds at most one row. */
  method GetOrCreateTwice(table: NameTable, name: string) returns (first: nat, second: nat)
    requires table.Valid()
    modifies table
    ensures table.Valid()
    ensures first == second
    ensures table.names == old(table.names) + (if name in old(table.names) then [] else [name])
  {
    first := table.GetOrCreate(name);
    second := table.GetOrCreate(name);
  }

  /** The generics table: unique names with the indication and side effects stored on each row. */
  class GenericTable {
    /** The row with id `i + 1` holds `names[i]`. */
    var names: seq<string>
    /** The (indication, side effects) of each row. */
    var info: seq<(string, string)>

    predicate Valid()
      reads this
    {
      Distinct(names) && |info| == |names|
    }

    constructor ()
      ensures names == [] && info == [] && Valid()
    {
      names := [];
      info := [];
    }

    /**
     * `get_or_create_generic`: the id of `name`. A new name gets a row carrying the given
     * medical information; a known one has its information replaced only when some of it is
     * provided.
     */
    method GetOrCreate(name: string, indication: string, sideEffects: string) returns (id: nat)
      requires Valid()
      modifies this
      ensures Valid()
      ensures RowId(names, name) == Some(id)
      ensures name in old(names) ==> names == old(names)
      ensures name in old(names) ==>
        info == if indication != "" || sideEffects != "" then old(info)[id - 1 := (indication, sideEffects)] else old(info)
      ensures name !in old(names) ==> names == old(names) + [name] && info == old(info) + [(indication, sideEffects)]
    {
      var found := RowId(names, name);
      if found.Some? {
        id := found.value;
        if indication != "" || sideEffects != "" {
          info := info[id - 1 := (indication, sideEffects)];
        }
      } else {
        RowIdSnoc(names, name, name);
        names := names + [name];
        info := info + [(indication, sideEffects)];
        id := |names|;
      }
    }
  }

  // ---------------------------------------------------------------------------
  // Records to brand rows
  // ---------------------------------------------------------------------------

  /** A row of the brands table (its `last_updated` date comes from the clock). */
  datatype Brand = Brand(
    name: string,
    genericId: nat,
    manufacturerId: Option<nat>,
    strength: string,
    dosageForm: string,
    price: Option<real>,
    unitPrice: Option<real>,
    packSize: string,
    confidence: string,
    verified: bool)

  /** What the loop of `main` reads off a record before it touches the database. */
  datatype Entry = Entry(
    generic: string,
    maker: string,
    brand: string,
    indication: string,
    sideEffects: string,
    strength: string,
    dosageForm: string,
    packSize: string,
    price: Option<real>,
    unitPrice: Option<real>,
    confidence: string)

  /**
   * The generic name comes from `generic_name`, or `generic` when that is empty, the
   * manufacturer from `manufacturer` or else `company`, all three names stripped; a record
   * without a confidence column is `LOW`.
   */
  function EntryOf(record: Row): Entry {
    Entry(
      Strip(FirstFilled(record, ["generic_name", "generic"])),
      Strip(FirstFilled(record, ["manufacturer", "company"])),
      Strip(Get(record, "brand_name")),
      Get(record, "indication"),
      Get(record, "side_effects"),
      Get(record, "strength"),
      Get(record, "dosage_form"),
      Get(record, "pack_size"),
      PriceOf(record),
      UnitPriceOf(record),
      if "confidence" in record then record["confidence"] else "LOW")
  }

  /** Each name falls back to its second column only when the first is missing or empty. */
  lemma EntryColumns(record: Row)
    ensures Get(record, "generic_name") != "" ==> EntryOf(record).generic == Strip(record["generic_name"])
    ensures Get(record, "generic_name") == "" ==> EntryOf(record).generic == Strip(Get(record, "generic"))
    ensures Get(record, "manufacturer") != "" ==> EntryOf(record).maker == Strip(record["manufacturer"])
    ensures Get(record, "manufacturer") == "" ==> EntryOf(record).maker == Strip(Get(record, "company"))
    ensures "confidence" !in record ==> EntryOf(record).confidence == "LOW"
  {
    var gs: seq<string> := ["generic_name", "generic"];
    var ms: seq<string> := ["manufacturer", "company"];
    if Get(record, "generic_name") == "" {
      FirstFilledSecond(record, gs);
    } else {
      FirstFilledPicksFirst(record, gs, 0);
    }
    if Get(record, "manufacturer") == "" {
      FirstFilledSecond(record, ms);
    } else {
      FirstFilledPicksFirst(record, ms, 0);
    }
  }

  lemma FirstFilledSecond(record: Row, columns: seq<string>)
    requires |columns| == 2 && Get(record, columns[0]) == ""
    ensures FirstFilled(record, columns) == Get(record, columns[1])
  {
    if Get(record, columns[1]) != "" {
      FirstFilledPicksFirst(record, columns, 1);
    }
  }

  /** A record is loaded when it has both a generic and a brand name. */
  predicate Accepted(e: Entry) {
    e.generic != "" && e.brand != ""
  }

  /** `confidence in ("HIGH", "MEDIUM")`. */
  predicate Verified(confidence: string) {
    confidence == "HIGH" || confidence == "MEDIUM"
  }

  function GenericKey(e: Entry): string {
    e.generic
  }

  function MakerKey(e: Entry): string {
    e.maker
  }

  /** The brand row an entry becomes once its generic and manufacturer ids are known. */
  function BrandRow(e: Entry, genericId: nat, manufacturerId: Option<nat>): (b: Brand)
    ensures b.verified <==> e.confidence in {"HIGH", "MEDIUM"}
  {
    Brand(e.brand, genericId, manufacturerId, e.strength, e.dosageForm, e.price, e.unitPrice,
          e.packSize, e.confidence, Verified(e.confidence))
  }

  /** Only a HIGH or MEDIUM confidence marks a brand verified; a record without one is not. */
  lemma UnverifiedByDefault(record: Row, genericId: nat, manufacturerId: Option<nat>)
    requires "confidence" !in record
    ensures !BrandRow(EntryOf(record), genericId, manufacturerId).verified
  {
  }

  /** `[f(x) for x in xs if keep(f(x))]`. */
  function FilterMap<R, E>(xs: seq<R>, f: R -> E, keep: E -> bool): (ys: seq<E>)
    ensures |ys| <= |xs|
  {
    if xs == [] then []
    else
      var y := f(xs[|xs| - 1]);
      FilterMap(xs[..|xs| - 1], f, keep) + (if keep(y) then [y] else [])
  }

  lemma FilterMapSnoc<R, E>(xs: seq<R>, f: R -> E, keep: E -> bool, i: nat)
    requires i < |xs|
    ensures keep(f(xs[i])) ==> FilterMap(xs[..i + 1], f, keep) == FilterMap(xs[..i], f, keep) + [f(xs[i])]
    ensures !keep(f(xs[i])) ==> FilterMap(xs[..i + 1], f, keep) == FilterMap(xs[..i], f, keep)
  {
    assert xs[..i + 1][..i] == xs[..i];
  }

  /** Everything `FilterMap` keeps passes `keep`, and every image that passes is kept. */
  lemma {:induction false} FilterMapMeaning<R, E>(xs: seq<R>, f: R -> E, keep: E -> bool)
    ensures forall k :: 0 <= k < |FilterMap(xs, f, keep)| ==> keep(FilterMap(xs, f, keep)[k])
    ensures forall i :: 0 <= i < |xs| && keep(f(xs[i])) ==> f(xs[i]) in FilterMap(xs, f, keep)
  {
    if xs != [] {
      var n := |xs| - 1;
      FilterMapMeaning(xs[..n], f, keep);
      FilterMapSnoc(xs, f, keep, n);
      assert xs[..n + 1] == xs;
      assert forall i :: 0 <= i < n ==> xs[..n][i] == xs[i];
    }
  }

  /** The entries of the records that are loaded, in order. */
  function AcceptedEntries(records: seq<Row>): seq<Entry> {
    FilterMap(records, EntryOf, Accepted)
  }

  /**
   * Every loaded entry has a generic and a brand name, and the entry of every record with
   * both is loaded.
   */
  lemma AcceptedEntriesMeaning(records: seq<Row>)
    ensures forall k :: 0 <= k < |AcceptedEntries(records)| ==> Accepted(AcceptedEntries(records)[k])
    ensures forall i :: 0 <= i < |records| && Accepted(EntryOf(records[i])) ==> EntryOf(records[i]) in AcceptedEntries(records)
  {
    FilterMapMeaning(records, EntryOf, Accepted);
  }

  /** The entries that name a manufacturer, in order. */
  function WithMaker(entries: seq<Entry>): (r: seq<Entry>)
    ensures forall i :: 0 <= i < |r| ==> r[i].maker != ""
  {
    if entries == [] then []
    else
      var last := entries[|entries| - 1];
      WithMaker(entries[..|entries| - 1]) + (if last.maker != "" then [last] else [])
  }

  predicate HasInfo(e: Entry) {
    e.indication != "" || e.sideEffects != ""
  }

  /**
   * The medical information a generic ends up with: that of the last entry of the generic
   * that provides some, or none at all.
   */
  function MedicalInfo(entries: seq<Entry>, generic: string): (string, string) {
    if entries == [] then ("", "")
    else
      var last := entries[|entries| - 1];
      if last.generic == generic && HasInfo(last) then (last.indication, last.sideEffects)
      else MedicalInfo(entries[..|entries| - 1], generic)
  }

  /** The id a table gives a name, or 0 (no row) when it has none. */
  function IdOrZero(id: Option<nat>): nat {
    if id.Some? then id.value else 0
  }

  /** The brand row of `e` with its ids looked up in `generics` and `makers`. */
  function BrandFor(e: Entry, generics: seq<string>, makers: seq<string>): Brand {
    BrandRow(e, IdOrZero(RowId(generics, e.generic)), if e.maker == "" then None else RowId(makers, e.maker))
  }

  /** Every generic row carries the medical information the entries `acc` leave it with. */
  predicate InfoFaithful(acc: seq<Entry>, generics: seq<string>, info: seq<(string, string)>) {
    |info| == |generics| && forall k {:trigger info[k]} :: 0 <= k < |generics| ==> info[k] == MedicalInfo(acc, generics[k])
  }

  /** One brand row per entry of `acc`, in order, with its ids looked up in the tables. */
  predicate RowsFaithful(acc: seq<Entry>, brands: seq<Brand>, generics: seq<string>, makers: seq<string>) {
    |brands| == |acc| && forall j {:trigger brands[j]} :: 0 <= j < |acc| ==> brands[j] == BrandFor(acc[j], generics, makers)
  }

  /**
   * The database after loading the accepted entries `acc`: one generic row per generic name
   * and one manufacturer row per manufacturer name, each in first-seen order, every generic
   * carrying its medical information, and one brand row per entry, in order.
   */
  predicate Built(acc: seq<Entry>, generics: seq<string>, info: seq<(string, string)>, makers: seq<string>, brands: seq<Brand>) {
    && generics == Keys(acc, GenericKey)
    && makers == Keys(WithMaker(acc), MakerKey)
    && InfoFaithful(acc, generics, info)
    && RowsFaithful(acc, brands, generics, makers)
  }

  /**
   * In the built database every brand row is its entry's, with a generic id that names the
   * entry's generic and a manufacturer id, present exactly when the entry names a
   * manufacturer, that names it.
   */
  lemma BuiltMeaning(acc: seq<Entry>, generics: seq<string>, info: seq<(string, string)>, makers: seq<string>, brands: seq<Brand>, j: nat)
    requires Built(acc, generics, info, makers, brands)
    requires j < |brands|
    ensures brands[j] == BrandRow(acc[j], brands[j].genericId, brands[j].manufacturerId)
    ensures 1 <= brands[j].genericId <= |generics| && generics[brands[j].genericId - 1] == acc[j].generic
    ensures brands[j].manufacturerId.Some? <==> acc[j].maker != ""
    ensures brands[j].manufacturerId.Some? ==>
      var id := brands[j].manufacturerId.value;
      1 <= id <= |makers| && makers[id - 1] == acc[j].maker
  {
    assert GenericKey(acc[j]) in generics;
    if acc[j].maker != "" {
      WithMakerCovers(acc, j);
      var w :| 0 <= w < |WithMaker(acc)| && WithMaker(acc)[w] == acc[j];
      assert MakerKey(WithMaker(acc)[w]) in makers;
    }
  }

  /**
   * The generics table of a built database (see `Built`) holds each generic name of the
   * loaded entries once, and nothing else.
   */
  lemma GenericsTable(acc: seq<Entry>, generics: seq<string>, n: string)
    requires generics == Keys(acc, GenericKey)
    ensures Distinct(generics)
    ensures n in generics <==> exists j :: 0 <= j < |acc| && acc[j].generic == n
  {
    KeysMembership(acc, GenericKey, n);
    if exists j :: 0 <= j < |acc| && acc[j].generic == n {
      var j :| 0 <= j < |acc| && acc[j].generic == n;
      assert GenericKey(acc[j]) == n;
    }
  }

  /**
   * The manufacturers table of a built database holds each non-empty manufacturer name of the
   * loaded entries once, and nothing else.
   */
  lemma MakersTable(acc: seq<Entry>, makers: seq<string>, n: string)
    requires makers == Keys(WithMaker(acc), MakerKey)
    ensures Distinct(makers)
    ensures n in makers <==> n != "" && exists j :: 0 <= j < |acc| && acc[j].maker == n
  {
    if n != "" && exists j :: 0 <= j < |acc| && acc[j].maker == n {
      var j :| 0 <= j < |acc| && acc[j].maker == n;
      MakerListed(acc, j);
    }
    if n in makers {
      MakerSound(acc, n);
    }
  }

  lemma MakerListed(acc: seq<Entry>, j: nat)
    requires j < |acc| && acc[j].maker != ""
    ensures acc[j].maker in Keys(WithMaker(acc), MakerKey)
  {
    WithMakerCovers(acc, j);
    var w :| 0 <= w < |WithMaker(acc)| && WithMaker(acc)[w] == acc[j];
    assert MakerKey(WithMaker(acc)[w]) == acc[j].maker;
  }

  lemma MakerSound(acc: seq<Entry>, n: string)
    requires n in Keys(WithMaker(acc), MakerKey)
    ensures n != "" && exists j :: 0 <= j < |acc| && acc[j].maker == n
  {
    KeysMembership(WithMaker(acc), MakerKey, n);
    var w :| 0 <= w < |WithMaker(acc)| && MakerKey(WithMaker(acc)[w]) == n;
    WithMakerWithin(acc, w);
  }

  /** `WithMaker` only keeps entries of `acc`. */
  lemma {:induction false} WithMakerWithin(acc: seq<Entry>, w: nat)
    requires w < |WithMaker(acc)|
    ensures exists j :: 0 <= j < |acc| && acc[j] == WithMaker(acc)[w]
  {
    var n := |acc| - 1;
    var init := acc[..n];
    if w < |WithMaker(init)| {
      WithMakerWithin(init, w);
      var j :| 0 <= j < |init| && init[j] == WithMaker(init)[w];
      assert acc[j] == WithMaker(acc)[w];
    } else {
      assert acc[n] == WithMaker(acc)[w];
    }
  }

  /** Every entry that names a manufacturer is among `WithMaker`'s entries. */
  lemma {:induction false} WithMakerCovers(acc: seq<Entry>, j: nat)
    requires j < |acc| && acc[j].maker != ""
    ensures acc[j] in WithMaker(acc)
  {
    if j < |acc| - 1 {
      WithMakerCovers(acc[..|acc| - 1], j);
    }
  }

  lemma MedicalInfoSnoc(acc: seq<Entry>, e: Entry, generic: string)
    ensures MedicalInfo(acc + [e], generic) ==
      if e.generic == generic && HasInfo(e) then (e.indication, e.sideEffects) else MedicalInfo(acc, generic)
  {
    assert (acc + [e])[..|acc|] == acc;
  }

  /** A generic no entry names has no medical information. */
  lemma {:induction false} MedicalInfoUnseen(entries: seq<Entry>, generic: string)
    requires forall i :: 0 <= i < |entries| ==> entries[i].generic != generic
    ensures MedicalInfo(entries, generic) == ("", "")
  {
    if entries != [] {
      MedicalInfoUnseen(entries[..|entries| - 1], generic);
    }
  }

  /** `get_or_create_generic` on the entry's generic keeps every row's medical information right. */
  lemma InfoStep(acc: seq<Entry>, generics: seq<string>, info: seq<(string, string)>,
                 generics': seq<string>, info': seq<(string, string)>, e: Entry)
    requires generics == Keys(acc, GenericKey) && InfoFaithful(acc, generics, info)
    requires e.generic in generics ==>
      && generics' == generics
      && info' == if HasInfo(e) then info[RowId(generics, e.generic).value - 1 := (e.indication, e.sideEffects)] else info
    requires e.generic !in generics ==> generics' == generics + [e.generic] && info' == info + [(e.indication, e.sideEffects)]
    ensures InfoFaithful(acc + [e], generics', info')
  {
    var g := e.generic;
    forall x {
      MedicalInfoSnoc(acc, e, x);
    }
    if g in generics {
      var p := RowId(generics, g).value - 1;
      forall k | 0 <= k < |generics'|
        ensures info'[k] == MedicalInfo(acc + [e], generics'[k])
      {
        if k != p && HasInfo(e) {
          assert generics[k] != g;
        }
      }
    } else {
      assert forall i :: 0 <= i < |acc| ==> GenericKey(acc[i]) in generics;
      MedicalInfoUnseen(acc, g);
      forall k | 0 <= k < |generics'|
        ensures info'[k] == MedicalInfo(acc + [e], generics'[k])
      {
        if k < |generics| {
          assert generics'[k] == generics[k] != g;
        }
      }
    }
  }

  /** The manufacturer rows after an entry: its manufacturer is added when it is new. */
  lemma MakersStep(acc: seq<Entry>, e: Entry)
    ensures var makers := Keys(WithMaker(acc), MakerKey);
      Keys(WithMaker(acc + [e]), MakerKey) == if e.maker == "" || e.maker in makers then makers else makers + [e.maker]
  {
    assert (acc + [e])[..|acc|] == acc;
    if e.maker == "" {
      assert WithMaker(acc + [e]) == WithMaker(acc);
    } else {
      assert WithMaker(acc + [e]) == WithMaker(acc) + [e];
      KeysSnoc(WithMaker(acc), MakerKey, e);
    }
  }

  /** Adding the new generic and manufacturer leaves the ids of every earlier entry alone. */
  lemma IdsStable(acc: seq<Entry>, g: string, m: string, names0: seq<string>, makers0: seq<string>,
                  names1: seq<string>, makers1: seq<string>)
    requires names0 == Keys(acc, GenericKey) && makers0 == Keys(WithMaker(acc), MakerKey)
    requires names1 == if g in names0 then names0 else names0 + [g]
    requires makers1 == if m == "" || m in makers0 then makers0 else makers0 + [m]
    ensures forall j :: 0 <= j < |acc| ==> RowId(names1, acc[j].generic) == RowId(names0, acc[j].generic)
    ensures forall j :: 0 <= j < |acc| ==> RowId(makers1, acc[j].maker) == RowId(makers0, acc[j].maker)
  {
    forall j | 0 <= j < |acc|
      ensures RowId(names1, acc[j].generic) == RowId(names0, acc[j].generic)
      ensures RowId(makers1, acc[j].maker) == RowId(makers0, acc[j].maker)
    {
      assert GenericKey(acc[j]) in names0;
      RowIdSnoc(names0, g, acc[j].generic);
      RowIdSnoc(makers0, m, acc[j].maker);
      if acc[j].maker != "" {
        WithMakerCovers(acc, j);
        var w :| 0 <= w < |WithMaker(acc)| && WithMaker(acc)[w] == acc[j];
        assert MakerKey(WithMaker(acc)[w]) in makers0;
      }
    }
  }

  /** The brand rows after loading `e`: the earlier rows keep their ids, and `e`'s row follows. */
  lemma RowsStep(acc: seq<Entry>, brands: seq<Brand>, e: Entry, names0: seq<string>, makers0: seq<string>,
                 names1: seq<string>, makers1: seq<string>, genericId: nat, makerId: Option<nat>)
    requires names0 == Keys(acc, GenericKey) && makers0 == Keys(WithMaker(acc), MakerKey)
    requires RowsFaithful(acc, brands, names0, makers0)
    requires names1 == (if e.generic in names0 then names0 else names0 + [e.generic])
    requires RowId(names1, e.generic) == Some(genericId)
    requires makers1 == (if e.maker == "" || e.maker in makers0 then makers0 else makers0 + [e.maker])
    requires makerId == (if e.maker == "" then None else RowId(makers1, e.maker))
    ensures RowsFaithful(acc + [e], brands + [BrandRow(e, genericId, makerId)], names1, makers1)
  {
    IdsStable(acc, e.generic, e.maker, names0, makers0, names1, makers1);
    var acc', brands' := acc + [e], brands + [BrandRow(e, genericId, makerId)];
    forall j | 0 <= j < |acc'|
      ensures brands'[j] == BrandFor(acc'[j], names1, makers1)
    {
      if j < |acc| {
        assert acc'[j] == acc[j] && brands'[j] == brands[j];
      }
    }
  }

  /**
   * Loading an accepted entry: whatever `get_or_create_generic` and
   * `get_or_create_manufacturer` do to the tables, as their contracts allow, the database is
   * still the one built from the entries seen, now with `e` too.
   */
  lemma LoadStep(acc: seq<Entry>, e: Entry, brands: seq<Brand>,
                 names0: seq<string>, info0: seq<(string, string)>, makers0: seq<string>,
                 names1: seq<string>, info1: seq<(string, string)>, makers1: seq<string>,
                 genericId: nat, makerId: Option<nat>)
    requires Built(acc, names0, info0, makers0, brands)
    requires RowId(names1, e.generic) == Some(genericId)
    requires e.generic in names0 ==> names1 == names0
    requires e.generic in names0 ==>
      info1 == if HasInfo(e) then info0[genericId - 1 := (e.indication, e.sideEffects)] else info0
    requires e.generic !in names0 ==> names1 == names0 + [e.generic] && info1 == info0 + [(e.indication, e.sideEffects)]
    requires e.maker == "" ==> makers1 == makers0 && makerId == None
    requires e.maker != "" ==> makerId.Some? && RowId(makers1, e.maker) == makerId
    requires e.maker != "" && e.maker in makers0 ==> makers1 == makers0
    requires e.maker != "" && e.maker !in makers0 ==> makers1 == makers0 + [e.maker]
    ensures Built(acc + [e], names1, info1, makers1, brands + [BrandRow(e, genericId, makerId)])
  {
    assert names1 == Keys(acc + [e], GenericKey) by {
      KeysSnoc(acc, GenericKey, e);
    }
    assert makers1 == Keys(WithMaker(acc + [e]), MakerKey) by {
      MakersStep(acc, e);
    }
    assert InfoFaithful(acc + [e], names1, info1) by {
      InfoStep(acc, names0, info0, names1, info1, e);
    }
    assert RowsFaithful(acc + [e], brands + [BrandRow(e, genericId, makerId)], names1, makers1) by {
      RowsStep(acc, brands, e, names0, makers0, names1, makers1, genericId, makerId);
    }
  }

  /**
   * The body of `main`'s loop for a record with a generic and a brand name: look up or create
   * its generic and (when it names one) its manufacturer, and make its brand row.
   */
  method LoadRecord(generics: GenericTable, makers: NameTable, ghost brands: seq<Brand>, records: seq<Row>, i: nat)
    returns (brand: Brand)
    requires i < |records| && Accepted(EntryOf(records[i]))
    requires generics.Valid() && makers.Valid()
    requires Built(AcceptedEntries(records[..i]), generics.names, generics.info, makers.names, brands)
    modifies generics, makers
    ensures generics.Valid() && makers.Valid()
    ensures Built(AcceptedEntries(records[..i + 1]), generics.names, generics.info, makers.names, brands + [brand])
  {
    var e := EntryOf(records[i]);
    ghost var names0, info0, makers0 := generics.names, generics.info, makers.names;
    var genericId := generics.GetOrCreate(e.generic, e.indication, e.sideEffects);
    var makerId: Option<nat> := None;
    if e.maker != "" {
      var id := makers.GetOrCreate(e.maker);
      makerId := Some(id);
    }
    FilterMapSnoc(records, EntryOf, Accepted, i);
    LoadStep(AcceptedEntries(records[..i]), e, brands, names0, info0, makers0,
             generics.names, generics.info, makers.names, genericId, makerId);
    brand := BrandRow(e, genericId, makerId);
  }

  /** A record without a generic or a brand name leaves the database as it was. */
  lemma SkipStep(records: seq<Row>, i: nat, names: seq<string>, info: seq<(string, string)>, makers: seq<string>, brands: seq<Brand>)
    requires i < |records| && !Accepted(EntryOf(records[i]))
    requires Built(AcceptedEntries(records[..i]), names, info, makers, brands)
    ensures Built(AcceptedEntries(records[..i + 1]), names, info, makers, brands)
  {
    FilterMapSnoc(records, EntryOf, Accepted, i);
  }

  /** Before the first record, the empty tables are the database built from no entries. */
  lemma NothingLoaded(records: seq<Row>)
    ensures Built(AcceptedEntries(records[..0]), [], [], [], [])
  {
    assert records[..0] == [];
  }

  /**
   * One turn of `main`'s loop: a record without a generic or brand name is skipped
   * (`loaded` is false), any other is loaded and its row appended to `brands`.
   */
  method LoadOrSkip(generics: GenericTable, makers: NameTable, brands: seq<Brand>, records: seq<Row>, i: nat)
    returns (loaded: bool, brands': seq<Brand>)
    requires i < |records|
    requires generics.Valid() && makers.Valid()
    requires Built(AcceptedEntries(records[..i]), generics.names, generics.info, makers.names, brands)
    modifies generics, makers
    ensures generics.Valid() && makers.Valid()
    ensures loaded <==> Accepted(EntryOf(records[i]))
    ensures |brands'| == |brands| + (if loaded then 1 else 0)
    ensures Built(AcceptedEntries(records[..i + 1]), generics.names, generics.info, makers.names, brands')
  {
    var e := EntryOf(records[i]);
    loaded := e.generic != "" && e.brand != "";
    if loaded {
      var brand := LoadRecord(generics, makers, brands, records, i);
      brands' := brands + [brand];
    } else {
      brands' := brands;
      SkipStep(records, i, generics.names, generics.info, makers.names, brands);
    }
  }

  /**
   * The insertion loop of `main`: skips records without a generic or brand name and loads the
   * rest, in order, into fresh tables.
   */
  method BuildDatabase(records: seq<Row>) returns (generics: GenericTable, makers: NameTable, brands: seq<Brand>, inserted: nat)
    ensures generics.Valid() && makers.Valid()
    ensures Built(AcceptedEntries(records), generics.names, generics.info, makers.names, brands)
    ensures inserted == |brands|
  {
    generics := new GenericTable();
    makers := new NameTable();
    brands := [];
    inserted := 0;
    var i := 0;
    NothingLoaded(records);
    while i < |records|
      invariant 0 <= i <= |records|
      invariant generics.Valid() && makers.Valid()
      invariant Built(AcceptedEntries(records[..i]), generics.names, generics.info, makers.names, brands)
      invariant inserted == |brands|
    {
      var loaded;
      loaded, brands := LoadOrSkip(generics, makers, brands, records, i);
      if loaded {
        inserted := inserted + 1;
      }
      i := i + 1;
    }
    assert records[..i] == records;
  }
}
