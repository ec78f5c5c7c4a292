/**
 * `update_real_prices.py`: read the Kaggle medicine list, take the taka price out of each
 * `package container` text, keep the first positive price per normalized brand name, and then
 * mark every brand of the database VERIFIED with that price when its name is listed and
 * ESTIMATED otherwise.
 */
module RealPrices {
  import opened Wrappers
  import opened Text
  import opened CsvRows
  import opened BrandsTable

  // ---------------------------------------------------------------------------
  // Names
  // ---------------------------------------------------------------------------

  /**
   * `normalize_name`: `""` for an empty name, otherwise `name.lower().strip()`: the name
   * without the whitespace around it, lower-cased.
   */
  function NormalizeName(name: string): (r: string)
    ensures Trimmed(r)
    ensures forall i :: 0 <= i < |r| ==> !IsUpper(r[i])
    ensures |r| <= |name|
    ensures exists a, b :: SpacesOutside(name, a, b) && r == Lower(name[a..b])
  {
    if name == "" then
      assert SpacesOutside(name, 0, 0) && "" == Lower(name[0..0]);
      ""
    else
      StripLower(name);
      Strip(Lower(name))
  }

  /** Lower-casing keeps whitespace where it is, so the stripped slice is the same on both sides. */
  lemma StripLower(name: string)
    ensures exists a, b :: SpacesOutside(name, a, b) && Strip(Lower(name)) == Lower(name[a..b])
  {
    var l := Lower(name);
    var r := Strip(l);
    var a := SkipSpaces(l, 0);
    var b := a + |r|;
    forall k | 0 <= k < |name| ensures IsSpace(l[k]) == IsSpace(name[k]) {
      assert l[k] == LowerChar(name[k]);
    }
    assert l[a..b] == Lower(name[a..b]);
  }

  /** A lower-case string that neither starts nor ends with whitespace is its own key. */
  lemma NormalizedFixed(s: string)
    requires Trimmed(s) && forall i :: 0 <= i < |s| ==> !IsUpper(s[i])
    ensures NormalizeName(s) == s
  {
    if s != "" {
      assert Lower(s) == s;
      assert SkipSpaces(s, 0) == 0;
      assert BackSpaces(s, 0, |s|) == |s|;
    }
  }

  /** Normalizing a key again changes nothing. */
  lemma NormalizeNameIdempotent(name: string)
    ensures NormalizeName(NormalizeName(name)) == NormalizeName(name)
  {
    NormalizedFixed(NormalizeName(name));
  }

  /** Names that differ only in letter case share a key. */
  lemma NormalizeNameIgnoresCase(name: string)
    ensures NormalizeName(Lower(name)) == NormalizeName(name)
  {
    assert Lower(Lower(name)) == Lower(name);
  }

  // ---------------------------------------------------------------------------
  // Prices in the package text
  // ---------------------------------------------------------------------------

  /** The taka sign `৳` (U+09F3). */
  const TakaSign: char := '\U{09F3}'

  const UnitPriceLabel: string := "Unit Price:"

  /** The regex class `[\d,.]`. */
  predicate IsAmountChar(c: char) {
    IsDigit(c) || c == ',' || c == '.'
  }

  /** The end of the run of `[\d,.]` characters that starts at `i`. */
  function AmountEnd(s: string, i: nat): (e: nat)
    requires i <= |s|
    ensures i <= e <= |s| && (e == |s| || !IsAmountChar(s[e]))
    ensures forall k :: i <= k < e ==> IsAmountChar(s[k])
    decreases |s| - i
  {
    if i < |s| && IsAmountChar(s[i]) then AmountEnd(s, i + 1) else i
  }

  /** The two patterns `extract_price` searches for, in the order it tries them. */
  datatype PricePattern =
    | LabelledUnitPrice  // Unit Price:\s*৳\s*([\d,.]+)
    | AnyTaka            // ৳\s*([\d,.]+)

  /** `৳\s*([\d,.]+)` matched at `i`: the captured amount, when the pattern matches there. */
  function TakaAmountAt(s: string, i: nat): (g: Option<string>)
    ensures g.Some? ==> i < |s| && s[i] == TakaSign
    ensures g.Some? ==> g.value != [] && forall k :: 0 <= k < |g.value| ==> IsAmountChar(g.value[k])
  {
    if i < |s| && s[i] == TakaSign then
      var k := SkipSpaces(s, i + 1);
      var e := AmountEnd(s, k);
      if k < e then Some(s[k..e]) else None
    else None
  }

  /**
   * The captured amount of pattern `p` matched at `i`. Both `\s*` and `[\d,.]+` are greedy and
   * nothing follows them that could make the engine back off, so a match at `i` is unique.
   */
  function AmountAt(s: string, i: nat, p: PricePattern): (g: Option<string>)
    ensures g.Some? ==> g.value != [] && forall k :: 0 <= k < |g.value| ==> IsAmountChar(g.value[k])
  {
    match p
    case AnyTaka => TakaAmountAt(s, i)
    case LabelledUnitPrice =>
      if OccursAt(s, UnitPriceLabel, i) then TakaAmountAt(s, SkipSpaces(s, i + |UnitPriceLabel|)) else None
  }

  /** Every match of either pattern holds a taka sign at or after `i`. */
  lemma AmountAtHasTaka(s: string, i: nat, p: PricePattern)
    requires AmountAt(s, i, p).Some?
    ensures exists k :: i <= k < |s| && s[k] == TakaSign
  {
    if p.LabelledUnitPrice? {
      var k := SkipSpaces(s, i + |UnitPriceLabel|);
      assert s[k] == TakaSign;
    } else {
      assert s[i] == TakaSign;
    }
  }

  /** The pattern `p` as a matcher over the positions of `s`. */
  function Matcher(s: string, p: PricePattern): nat -> Option<string> {
    (j: nat) => AmountAt(s, j, p)
  }

  /** `re.search(p, s)`: the leftmost position where `p` matches, with its amount. */
  function Search(s: string, p: PricePattern): Option<(nat, string)> {
    Leftmost(|s|, 0, Matcher(s, p))
  }

  /** `float(amount.replace(',', ''))`, with `ValueError` as `None`. */
  function AmountValue(amount: string): (v: Option<real>)
    requires forall k :: 0 <= k < |amount| ==> IsAmountChar(amount[k])
    ensures v.Some? ==> v.value >= 0.0
  {
    DeleteKeepsChars(amount, ',', IsAmountChar);
    ParseDecimal(Delete(amount, ','))
  }

  /** Thousands separators do not change the amount: `"1,250.50"` reads as `1250.50`. */
  lemma AmountIgnoresComma(a: string, b: string)
    requires forall k :: 0 <= k < |a| ==> IsAmountChar(a[k])
    requires forall k :: 0 <= k < |b| ==> IsAmountChar(b[k])
    ensures forall k :: 0 <= k < |a + "," + b| ==> IsAmountChar((a + "," + b)[k])
    ensures forall k :: 0 <= k < |a + b| ==> IsAmountChar((a + b)[k])
    ensures AmountValue(a + "," + b) == AmountValue(a + b)
  {
    assert Delete(a + "," + b, ',') == Delete(a + b, ',') by {
      DeleteAppend(a + ",", b, ',');
      DeleteAppend(a, ",", ',');
      DeleteAppend(a, b, ',');
      assert Delete(",", ',') == [];
    }
  }

  /**
   * `extract_price`: `None` for an empty text; otherwise the amount after the first
   * `Unit Price: ৳`, or, when there is none, after the first `৳`, read as a number.
   */
  function ExtractPrice(text: string): (r: Option<real>)
    ensures text == "" ==> r.None?
    ensures r.Some? ==> r.value >= 0.0
  {
    if text == "" then None
    else
      var m := match Search(text, LabelledUnitPrice)
               case Some(u) => Some(u)
               case None => Search(text, AnyTaka);
      match m
      case None => None
      case Some(found) => AmountValue(found.1)
  }

  /** A text without a taka sign carries no price. */
  lemma NoTakaNoPrice(text: string)
    requires forall k :: 0 <= k < |text| ==> text[k] != TakaSign
    ensures ExtractPrice(text).None?
  {
    forall p: PricePattern, j | 0 <= j <= |text|
      ensures Matcher(text, p)(j).None?
    {
      if AmountAt(text, j, p).Some? {
        AmountAtHasTaka(text, j, p);
      }
    }
  }

  /**
   * A `Unit Price: ৳` amount wins over every other taka amount in the text, even ones that come
   * before it.
   */
  lemma UnitPricePreferred(text: string, k: nat)
    requires k <= |text| && AmountAt(text, k, LabelledUnitPrice).Some?
    requires forall j :: 0 <= j < k ==> AmountAt(text, j, LabelledUnitPrice).None?
    ensures ExtractPrice(text) == AmountValue(AmountAt(text, k, LabelledUnitPrice).value)
  {
    LeftmostFinds(|text|, 0, Matcher(text, LabelledUnitPrice), k);
  }

  /** Without a `Unit Price: ৳` amount, the first `৳` amount is the price. */
  lemma FirstTakaOtherwise(text: string, k: nat)
    requires forall j :: 0 <= j <= |text| ==> AmountAt(text, j, LabelledUnitPrice).None?
    requires k <= |text| && AmountAt(text, k, AnyTaka).Some?
    requires forall j :: 0 <= j < k ==> AmountAt(text, j, AnyTaka).None?
    ensures ExtractPrice(text) == AmountValue(AmountAt(text, k, AnyTaka).value)
  {
    LeftmostFinds(|text|, 0, Matcher(text, AnyTaka), k);
  }

  // ---------------------------------------------------------------------------
  // The first-wins price table
  // ---------------------------------------------------------------------------

  /** What one Kaggle row offers: its normalized brand name and the price in its package text. */
  datatype Listing = Listing(name: string, price: Option<real>)

  function ListingOf(row: Row): (l: Listing)
    ensures l.name == NormalizeName(Get(row, "brand name"))
    ensures l.price == ExtractPrice(Get(row, "package container"))
  {
    Listing(NormalizeName(Get(row, "brand name")), ExtractPrice(Get(row, "package container")))
  }

  /** `if name and price and price > 0`: a zero price is as good as none. */
  predicate Priced(l: Listing) {
    l.name != "" && l.price.Some? && l.price.value > 0.0
  }

  /** The table the loading loop builds from `rows`: a name is added once, with its first price. */
  function FirstPrices<R>(rows: seq<R>, listing: R -> Listing): (t: map<string, real>)
    ensures forall k :: k in t ==> k != "" && t[k] > 0.0
  {
    if rows == [] then map[]
    else
      var t := FirstPrices(rows[..|rows| - 1], listing);
      var l := listing(rows[|rows| - 1]);
      if Priced(l) && l.name !in t then t[l.name := l.price.value] else t
  }

  lemma FirstPricesSnoc<R>(rows: seq<R>, listing: R -> Listing, i: nat)
    requires i < |rows|
    ensures var t, l := FirstPrices(rows[..i], listing), listing(rows[i]);
      FirstPrices(rows[..i + 1], listing) == if Priced(l) && l.name !in t then t[l.name := l.price.value] else t
  {
    assert rows[..i + 1][..i] == rows[..i];
  }

  /** A name is in the table exactly when some row lists it with a positive price. */
  lemma {:induction false} FirstPricesKeys<R>(rows: seq<R>, listing: R -> Listing, k: string)
    ensures k in FirstPrices(rows, listing) <==>
      exists i :: 0 <= i < |rows| && Priced(listing(rows[i])) && listing(rows[i]).name == k
  {
    if rows != [] {
      var init := rows[..|rows| - 1];
      FirstPricesKeys(init, listing, k);
      assert forall i :: 0 <= i < |init| ==> init[i] == rows[i];
    }
  }

  /** The price kept for a name is the one on the first row that lists it with a positive price. */
  lemma {:induction false} FirstPricesFirst<R>(rows: seq<R>, listing: R -> Listing, i: nat)
    requires i < |rows| && Priced(listing(rows[i]))
    requires forall j :: 0 <= j < i ==> !(Priced(listing(rows[j])) && listing(rows[j]).name == listing(rows[i]).name)
    ensures listing(rows[i]).name in FirstPrices(rows, listing)
    ensures FirstPrices(rows, listing)[listing(rows[i]).name] == listing(rows[i]).price.value
  {
    var init := rows[..|rows| - 1];
    var l := listing(rows[i]);
    if i == |rows| - 1 {
      FirstPricesKeys(init, listing, l.name);
      assert forall j :: 0 <= j < |init| ==> init[j] == rows[j];
    } else {
      assert init[i] == rows[i];
      assert forall j :: 0 <= j < i ==> init[j] == rows[j];
      FirstPricesFirst(init, listing, i);
    }
  }

  /** Step 1 of `main`: the loop over the Kaggle rows that fills `kaggle_prices`. */
  method LoadKagglePrices(rows: seq<Row>) returns (prices: map<string, real>)
    ensures prices == FirstPrices(rows, ListingOf)
  {
    prices := map[];
    var i := 0;
    while i < |rows|
      invariant 0 <= i <= |rows|
      invariant prices == FirstPrices(rows[..i], ListingOf)
    {
      var name := NormalizeName(Get(rows[i], "brand name"));
      var price := ExtractPrice(Get(rows[i], "package container"));
      FirstPricesSnoc(rows, ListingOf, i);
      assert ListingOf(rows[i]) == Listing(name, price);
      if name != "" && price.Some? && price.value > 0.0 {
        if name !in prices {
          prices := prices[name := price.value];
        }
      }
      i := i + 1;
    }
    assert rows[..i] == rows;
  }

  // ---------------------------------------------------------------------------
  // Marking the database
  // ---------------------------------------------------------------------------

  /** Whether a row's normalized name is in the price table. */
  function Listed(prices: map<string, real>): StoredBrand -> bool {
    (b: StoredBrand) => NormalizeName(b.name) in prices
  }

  /**
   * A row after the second loop of `main` has looked at it: a listed row gets the table price
   * and VERIFIED, any other row is left as it was.
   */
  function VerifyListed(b: StoredBrand, prices: map<string, real>): (r: StoredBrand)
    ensures r.name == b.name
    ensures NormalizeName(b.name) in prices ==>
              r.verified && r.confidence == "VERIFIED" && r.price == Some(prices[NormalizeName(b.name)])
    ensures NormalizeName(b.name) !in prices ==> r == b
  {
    var key := NormalizeName(b.name);
    if key in prices then b.(price := Some(prices[key]), verified := true, confidence := "VERIFIED") else b
  }

  function VerifyAllListed(rows: seq<StoredBrand>, prices: map<string, real>): (r: seq<StoredBrand>)
    ensures |r| == |rows|
    ensures forall i :: 0 <= i < |rows| ==> r[i] == VerifyListed(rows[i], prices)
  {
    seq(|rows|, i requires 0 <= i < |rows| => VerifyListed(rows[i], prices))
  }

  /**
   * A brand row after `main`: with the table price and VERIFIED when its normalized name is in
   * the table, otherwise ESTIMATED with its price untouched.
   */
  function MarkReal(b: StoredBrand, prices: map<string, real>): (r: StoredBrand)
    ensures r.name == b.name
    ensures r.verified <==> NormalizeName(b.name) in prices
    ensures r.verified ==> r.confidence == "VERIFIED" && r.price == Some(prices[NormalizeName(b.name)])
    ensures !r.verified ==> r.confidence == "ESTIMATED" && r.price == b.price
  {
    VerifyListed(Estimated(b), prices)
  }

  function MarkAllReal(rows: seq<StoredBrand>, prices: map<string, real>): (r: seq<StoredBrand>)
    ensures |r| == |rows|
    ensures forall i :: 0 <= i < |rows| ==> r[i] == MarkReal(rows[i], prices)
  {
    seq(|rows|, i requires 0 <= i < |rows| => MarkReal(rows[i], prices))
  }

  /** The number of rows whose normalized name is in the table. */
  function CountListed(rows: seq<StoredBrand>, prices: map<string, real>): nat {
    CountWhere(rows, Listed(prices))
  }

  /** Looking at row `i` of a table whose earlier rows were looked at extends that prefix. */
  lemma VerifyStep(rows: seq<StoredBrand>, prices: map<string, real>, i: nat)
    requires i < |rows|
    ensures (VerifyAllListed(rows[..i], prices) + rows[i..])[i := VerifyListed(rows[i], prices)]
            == VerifyAllListed(rows[..i + 1], prices) + rows[i + 1..]
  {
    var a := (VerifyAllListed(rows[..i], prices) + rows[i..])[i := VerifyListed(rows[i], prices)];
    var b := VerifyAllListed(rows[..i + 1], prices) + rows[i + 1..];
    assert |a| == |b|;
    forall j | 0 <= j < |a| ensures a[j] == b[j] {
      if j < i {
        assert rows[..i][j] == rows[..i + 1][j];
      }
    }
  }

  /** After marking, the verified rows are exactly the listed ones. */
  lemma {:induction false} MarkedCount(rows: seq<StoredBrand>, prices: map<string, real>)
    ensures CountVerified(MarkAllReal(rows, prices)) == CountListed(rows, prices)
  {
    if rows != [] {
      var init := rows[..|rows| - 1];
      MarkedCount(init, prices);
      assert MarkAllReal(rows, prices)[..|rows| - 1] == MarkAllReal(init, prices);
    }
  }

  /** Marking does not look at the marks a row had before. */
  lemma {:induction false} ResetKeepsMarks(rows: seq<StoredBrand>, prices: map<string, real>)
    ensures MarkAllReal(ResetRows(rows), prices) == MarkAllReal(rows, prices)
    ensures CountListed(ResetRows(rows), prices) == CountListed(rows, prices)
  {
    if rows != [] {
      ResetKeepsMarks(rows[..|rows| - 1], prices);
      assert ResetRows(rows)[..|rows| - 1] == ResetRows(rows[..|rows| - 1]);
    }
  }

  /**
   * One pass of the second loop of `main`: row `i` gets its table price and VERIFIED when its
   * normalized name is listed, and `listed` says whether it was.
   */
  method VerifyRow(store: Store, brands: seq<StoredBrand>, prices: map<string, real>, i: nat) returns (listed: bool)
    requires i < |brands|
    requires store.rows == VerifyAllListed(brands[..i], prices) + brands[i..]
    modifies store
    ensures store.rows == VerifyAllListed(brands[..i + 1], prices) + brands[i + 1..]
    ensures listed <==> NormalizeName(brands[i].name) in prices
    ensures CountListed(brands[..i + 1], prices) == CountListed(brands[..i], prices) + (if listed then 1 else 0)
  {
    var key := NormalizeName(brands[i].name);
    VerifyStep(brands, prices, i);
    CountWhereSnoc(brands, Listed(prices), i);
    listed := key in prices;
    if listed {
      store.VerifyWithPrice(i, prices[key]);
    }
  }

  /** The second loop of `main`: every listed row is verified, and both counters count it. */
  method VerifyAll(store: Store, prices: map<string, real>) returns (updatedCount: nat, verifiedCount: nat)
    modifies store
    ensures store.rows == VerifyAllListed(old(store.rows), prices)
    ensures updatedCount == verifiedCount == CountListed(old(store.rows), prices)
  {
    var brands := store.rows;
    updatedCount, verifiedCount := 0, 0;
    var i := 0;
    while i < |brands|
      invariant 0 <= i <= |brands|
      invariant store.rows == VerifyAllListed(brands[..i], prices) + brands[i..]
      invariant updatedCount == verifiedCount == CountListed(brands[..i], prices)
    {
      var listed := VerifyRow(store, brands, prices, i);
      if listed {
        updatedCount := updatedCount + 1;
        verifiedCount := verifiedCount + 1;
      }
      i := i + 1;
    }
    assert brands[..i] == brands;
    assert brands[i..] == [];
  }

  /** Step 2 of `main`: reset every row to ESTIMATED, then verify the listed ones. */
  method UpdateRealPrices(store: Store, prices: map<string, real>) returns (updatedCount: nat, verifiedCount: nat)
    modifies store
    ensures store.rows == MarkAllReal(old(store.rows), prices)
    ensures updatedCount == verifiedCount == CountListed(old(store.rows), prices)
  {
    ghost var before := store.rows;
    store.ResetAll();
    updatedCount, verifiedCount := VerifyAll(store, prices);
    assert store.rows == MarkAllReal(before, prices);
    ResetKeepsMarks(before, prices);
  }
}
