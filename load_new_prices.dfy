/**
 * `load_new_prices.py`: read a new price list, resolve each row's company to a manufacturer
 * of the database through a table of name aliases, look the brand up by its normalized name
 * and manufacturer, and write the new price when it differs from the stored one by more than
 * a cent.
 */
module NewPrices {
  import opened Wrappers
  import opened Text
  import Discrepancy

  // ---------------------------------------------------------------------------
  // normalize
  // ---------------------------------------------------------------------------

  /** `.replace('-', '').replace(' ', '')`. */
  function Squeeze(s: string): string {
    Delete(Delete(s, '-'), ' ')
  }

  /** `normalize`: `''` for an empty text, otherwise stripped, lower-cased, without hyphens and spaces. */
  function Normalize(text: string): string {
    if text == "" then "" else Squeeze(Lower(Strip(text)))
  }

  predicate NotUpper(c: char) { !IsUpper(c) }

  predicate SqueezedChar(c: char) { c != '-' && c != ' ' && !IsUpper(c) }

  /** A normalized name holds no hyphen, no space and no upper-case letter. */
  lemma NormalizeChars(text: string)
    ensures forall i :: 0 <= i < |Normalize(text)| ==> SqueezedChar(Normalize(text)[i])
  {
    if text != "" {
      var t := Lower(Strip(text));
      DeleteKeepsChars(t, '-', NotUpper);
      var d := Delete(t, '-');
      assert forall i :: 0 <= i < |d| ==> d[i] != '-' && NotUpper(d[i]);
      DeleteKeepsChars(d, ' ', (c: char) => c != '-' && NotUpper(c));
    }
  }

  lemma SqueezeAppend(x: string, y: string)
    ensures Squeeze(x + y) == Squeeze(x) + Squeeze(y)
  {
    DeleteAppend(x, y, '-');
    DeleteAppend(Delete(x, '-'), Delete(y, '-'), ' ');
  }

  lemma LowerAppend(x: string, y: string)
    ensures Lower(x + y) == Lower(x) + Lower(y)
  {
  }

  lemma StripTrimmed(s: string)
    requires s != [] && !IsSpace(s[0]) && !IsSpace(s[|s| - 1])
    ensures Strip(s) == s
  {
    assert SkipSpaces(s, 0) == 0;
    assert BackSpaces(s, 0, |s|) == |s|;
  }

  /** A name without edge whitespace is only lower-cased and squeezed. */
  lemma NormalizeTrimmed(s: string)
    requires s != [] && !IsSpace(s[0]) && !IsSpace(s[|s| - 1])
    ensures Normalize(s) == Squeeze(Lower(s))
  {
    StripTrimmed(s);
  }

  /** A hyphen or a space is squeezed out wherever it stands. */
  lemma SqueezeSeparator(x: string, y: string, c: char)
    requires c == '-' || c == ' '
    ensures Squeeze(x + [c] + y) == Squeeze(x + y)
  {
    assert Squeeze(x + [c]) == Squeeze(x) by {
      SqueezeAppend(x, [c]);
      assert Squeeze([c]) == [];
    }
    SqueezeAppend(x + [c], y);
    SqueezeAppend(x, y);
  }

  /** Lower-casing leaves a separator where it is. */
  lemma LowerSeparator(x: string, y: string, c: char)
    requires !IsUpper(c)
    ensures Lower(x + [c] + y) == Lower(x) + [c] + Lower(y)
    ensures Lower(x + y) == Lower(x) + Lower(y)
  {
    LowerAppend(x + [c], y);
    LowerAppend(x, [c]);
    LowerAppend(x, y);
  }

  /**
   * A hyphen or a space between two parts of a name does not change its normal form:
   * "Square-Pharma", "Square Pharma" and "SquarePharma" all normalize alike.
   */
  lemma SeparatorIgnored(a: string, b: string, c: char)
    requires c == '-' || c == ' '
    requires a != [] && b != [] && !IsSpace(a[0]) && !IsSpace(b[|b| - 1])
    ensures Normalize(a + [c] + b) == Normalize(a + b)
  {
    var s, t := a + [c] + b, a + b;
    assert s[0] == a[0] && s[|s| - 1] == b[|b| - 1];
    assert t[0] == a[0] && t[|t| - 1] == b[|b| - 1];
    NormalizeTrimmed(s);
    NormalizeTrimmed(t);
    LowerSeparator(a, b, c);
    SqueezeSeparator(Lower(a), Lower(b), c);
  }

  // ---------------------------------------------------------------------------
  // The manufacturer alias map
  // ---------------------------------------------------------------------------

  /**
   * `c` is where the first "pharm" or the first "lab" of `s` starts, whichever comes first,
   * or the end of `s` when it has neither.
   */
  predicate FirstMarker(s: string, c: nat) {
    && c <= |s|
    && (c == |s| || OccursAt(s, "pharm", c) || OccursAt(s, "lab", c))
    && forall j: nat :: j < c ==> !OccursAt(s, "pharm", j) && !OccursAt(s, "lab", j)
  }

  /** `simplified.split('pharm')[0].split('lab')[0].strip()`: the name before "pharm" and "lab". */
  function ShortName(simplified: string): (r: string)
    ensures |r| <= |simplified|
    ensures exists c: nat :: FirstMarker(simplified, c) && r == Strip(simplified[..c])
  {
    var b := Before(Before(simplified, "pharm"), "lab");
    BeforeMarkers(simplified);
    assert FirstMarker(simplified, |b|) && b == simplified[..|b|];
    Strip(b)
  }

  /** Cutting at "pharm" and then at "lab" cuts at whichever of the two comes first. */
  lemma BeforeMarkers(s: string)
    ensures var b := Before(Before(s, "pharm"), "lab"); FirstMarker(s, |b|) && b == s[..|b|]
  {
    var a := Before(s, "pharm");
    var b := Before(a, "lab");
    var c := |b|;
    assert b == s[..c];
    forall j: nat | j < c ensures !OccursAt(s, "pharm", j) {
      if !Contains(s, "pharm") {
        assert j <= |s|;
      }
    }
    forall j: nat | j < c ensures !OccursAt(s, "lab", j) {
      LabInsidePrefix(s, j);
      if !Contains(a, "lab") {
        assert j <= |a|;
      }
    }
    if Contains(a, "lab") {
      assert OccursAt(a, "lab", c);
      assert a[c..c + 3] == s[c..c + 3];
    }
  }

  /** Before the cut at "pharm", "lab" occurs in `s` exactly where it occurs in the cut: "pharm" starts with 'p'. */
  lemma LabInsidePrefix(s: string, j: nat)
    requires j < |Before(s, "pharm")|
    ensures OccursAt(s, "lab", j) <==> OccursAt(Before(s, "pharm"), "lab", j)
  {
    var a := Before(s, "pharm");
    if j + 3 <= |a| {
      assert s[j..j + 3] == a[j..j + 3];
    } else if Contains(s, "pharm") && j + 3 <= |s| {
      assert OccursAt(s, "pharm", |a|);
      assert s[j..j + 3][|a| - j] == s[|a|] == 'p';
    }
  }

  /** At most one position is the first marker. */
  lemma FirstMarkerUnique(s: string, c1: nat, c2: nat)
    requires FirstMarker(s, c1) && FirstMarker(s, c2)
    ensures c1 == c2
  {
  }

  /**
   * The keys the loop of step 1 assigns a manufacturer to, in order: its normalized name, then
   * the short name when that is longer than 3 characters.
   */
  function AliasesOf(mfr: string): (ks: seq<string>)
    ensures 1 <= |ks| <= 2 && ks[0] == Normalize(mfr)
    ensures |ks| == 2 <==> |ShortName(Normalize(mfr))| > 3
    ensures |ks| == 2 ==> ks[1] == ShortName(Normalize(mfr))
  {
    var simplified := Normalize(mfr);
    var firstWord := ShortName(simplified);
    if |firstWord| > 3 then [simplified, firstWord] else [simplified]
  }

  /**
   * A Python dict from alias to manufacturer name: `keys` lists the keys in insertion order,
   * which is the order `for key in mfr_map` visits them.
   */
  datatype Aliases = Aliases(keys: seq<string>, names: map<string, string>)

  /** What every dict satisfies: its keys are listed once each, and exactly they are mapped. */
  ghost predicate WellFormed(a: Aliases) {
    && (forall i, j :: 0 <= i < j < |a.keys| ==> a.keys[i] != a.keys[j])
    && (forall k :: k in a.names <==> k in a.keys)
  }

  /** `mfr_map[k] = v`: a new key goes last, an existing key keeps its place and takes the new value. */
  function Put(a: Aliases, k: string, v: string): Aliases {
    Aliases(if k in a.names then a.keys else a.keys + [k], a.names[k := v])
  }

  function PutAll(a: Aliases, ks: seq<string>, v: string): (r: Aliases)
    requires WellFormed(a)
    ensures WellFormed(r)
    decreases |ks|
  {
    if ks == [] then a else PutAll(Put(a, ks[0], v), ks[1..], v)
  }

  /** The alias table of `mfrs` when `aliases` gives each one's keys. */
  function Table(mfrs: seq<string>, aliases: string -> seq<string>): (a: Aliases)
    ensures WellFormed(a)
  {
    if mfrs == [] then Aliases([], map[])
    else PutAll(Table(mfrs[..|mfrs| - 1], aliases), aliases(mfrs[|mfrs| - 1]), mfrs[|mfrs| - 1])
  }

  /** `mfr_map` after step 1. */
  function AliasMap(mfrs: seq<string>): (a: Aliases)
    ensures WellFormed(a)
  {
    Table(mfrs, AliasesOf)
  }

  /** The keys of `ks` not already in `d`, appended to `d` in order of first appearance. */
  function Extend(d: seq<string>, ks: seq<string>): seq<string>
    decreases |ks|
  {
    if ks == [] then d else Extend(if ks[0] in d then d else d + [ks[0]], ks[1..])
  }

  /** Every key assignment of `mfrs`, in the order the loop makes them. */
  function Assignments(mfrs: seq<string>, aliases: string -> seq<string>): seq<string> {
    if mfrs == [] then [] else Assignments(mfrs[..|mfrs| - 1], aliases) + aliases(mfrs[|mfrs| - 1])
  }

  lemma {:induction false} PutAllKeys(a: Aliases, ks: seq<string>, v: string)
    requires WellFormed(a)
    ensures PutAll(a, ks, v).keys == Extend(a.keys, ks)
    decreases |ks|
  {
    if ks != [] {
      PutAllKeys(Put(a, ks[0], v), ks[1..], v);
    }
  }

  lemma {:induction false} ExtendAppend(d: seq<string>, xs: seq<string>, ys: seq<string>)
    ensures Extend(d, xs + ys) == Extend(Extend(d, xs), ys)
    decreases |xs|
  {
    if xs == [] {
      assert xs + ys == ys;
    } else {
      assert (xs + ys)[0] == xs[0] && (xs + ys)[1..] == xs[1..] + ys;
      ExtendAppend(if xs[0] in d then d else d + [xs[0]], xs[1..], ys);
    }
  }

  /**
   * Dict order: the table lists each alias once, in the order in which the loop first
   * assigned it, however often later manufacturers overwrite it.
   */
  lemma {:induction false} TableOrder(mfrs: seq<string>, aliases: string -> seq<string>)
    ensures Table(mfrs, aliases).keys == Extend([], Assignments(mfrs, aliases))
  {
    if mfrs != [] {
      var init, m := mfrs[..|mfrs| - 1], mfrs[|mfrs| - 1];
      TableOrder(init, aliases);
      PutAllKeys(Table(init, aliases), aliases(m), m);
      ExtendAppend([], Assignments(init, aliases), aliases(m));
    }
  }

  lemma {:induction false} PutAllNames(a: Aliases, ks: seq<string>, v: string, k: string)
    requires WellFormed(a)
    ensures k in PutAll(a, ks, v).names <==> k in a.names || k in ks
    ensures k in ks ==> PutAll(a, ks, v).names[k] == v
    ensures k !in ks && k in a.names ==> PutAll(a, ks, v).names[k] == a.names[k]
    decreases |ks|
  {
    if ks != [] {
      PutAllNames(Put(a, ks[0], v), ks[1..], v, k);
    }
  }

  /** An alias is in the table exactly when some manufacturer has it. */
  lemma {:induction false} TableKeys(mfrs: seq<string>, aliases: string -> seq<string>, k: string)
    ensures k in Table(mfrs, aliases).names <==> exists i :: 0 <= i < |mfrs| && k in aliases(mfrs[i])
  {
    if mfrs != [] {
      var init, m := mfrs[..|mfrs| - 1], mfrs[|mfrs| - 1];
      assert k in Table(mfrs, aliases).names <==> k in Table(init, aliases).names || k in aliases(m) by {
        PutAllNames(Table(init, aliases), aliases(m), m, k);
      }
      assert k in Table(init, aliases).names <==> exists i :: 0 <= i < |init| && k in aliases(init[i]) by {
        TableKeys(init, aliases, k);
      }
      SomeAliasSnoc(mfrs, init, m, aliases, k);
    }
  }

  lemma SomeAliasSnoc(mfrs: seq<string>, init: seq<string>, m: string, aliases: string -> seq<string>, k: string)
    requires mfrs == init + [m]
    ensures (exists i :: 0 <= i < |mfrs| && k in aliases(mfrs[i])) <==>
      (exists i :: 0 <= i < |init| && k in aliases(init[i])) || k in aliases(m)
  {
    assert forall i :: 0 <= i < |init| ==> init[i] == mfrs[i];
    if k in aliases(m) {
      assert mfrs[|init|] == m;
    }
  }

  /** Later manufacturers overwrite: an alias names the last manufacturer that has it. */
  lemma {:induction false} TableLastWins(mfrs: seq<string>, aliases: string -> seq<string>, i: nat, k: string)
    requires i < |mfrs| && k in aliases(mfrs[i])
    requires forall j :: i < j < |mfrs| ==> k !in aliases(mfrs[j])
    ensures k in Table(mfrs, aliases).names && Table(mfrs, aliases).names[k] == mfrs[i]
  {
    var init, m := mfrs[..|mfrs| - 1], mfrs[|mfrs| - 1];
    PutAllNames(Table(init, aliases), aliases(m), m, k);
    if i < |mfrs| - 1 {
      assert init[i] == mfrs[i];
      assert forall j :: i < j < |init| ==> init[j] == mfrs[j];
      TableLastWins(init, aliases, i, k);
    }
  }

  lemma TableStep(mfrs: seq<string>, i: nat)
    requires i < |mfrs|
    ensures Table(mfrs[..i + 1], AliasesOf) == PutAll(Table(mfrs[..i], AliasesOf), AliasesOf(mfrs[i]), mfrs[i])
  {
    assert mfrs[..i + 1][..i] == mfrs[..i];
  }

  lemma NoManufacturers(mfrs: seq<string>)
    ensures Table(mfrs[..0], AliasesOf) == Aliases([], map[])
  {
    assert mfrs[..0] == [];
  }

  /** Step 1 of `load_new_prices`: the loop that fills `mfr_map`. */
  method BuildAliasMap(mfrs: seq<string>) returns (keys: seq<string>, names: map<string, string>)
    ensures Aliases(keys, names) == AliasMap(mfrs)
  {
    keys, names := [], map[];
    var i := 0;
    NoManufacturers(mfrs);
    while i < |mfrs|
      invariant 0 <= i <= |mfrs|
      invariant Aliases(keys, names) == Table(mfrs[..i], AliasesOf)
    {
      TableStep(mfrs, i);
      keys, names := AddManufacturer(keys, names, mfrs[i]);
      i := i + 1;
    }
    assert mfrs[..i] == mfrs;
  }

  /** One pass of step 1: the manufacturer under its normalized name, then under its short name. */
  method AddManufacturer(keys: seq<string>, names: map<string, string>, mfrName: string)
    returns (keys': seq<string>, names': map<string, string>)
    requires WellFormed(Aliases(keys, names))
    ensures Aliases(keys', names') == PutAll(Aliases(keys, names), AliasesOf(mfrName), mfrName)
  {
    var simplified := Normalize(mfrName);
    keys', names' := Assign(keys, names, simplified, mfrName);
    var firstWord := ShortName(simplified);
    if |firstWord| > 3 {
      keys', names' := Assign(keys', names', firstWord, mfrName);
      PutTwo(Aliases(keys, names), simplified, firstWord, mfrName);
    } else {
      PutOne(Aliases(keys, names), simplified, mfrName);
    }
  }

  lemma PutOne(a: Aliases, k: string, v: string)
    requires WellFormed(a)
    ensures PutAll(a, [k], v) == Put(a, k, v)
  {
    assert [k][1..] == [];
  }

  lemma PutTwo(a: Aliases, k1: string, k2: string, v: string)
    requires WellFormed(a)
    ensures PutAll(a, [k1, k2], v) == Put(Put(a, k1, v), k2, v)
  {
    assert [k1, k2][1..] == [k2];
    PutWellFormed(a, k1, v);
    PutOne(Put(a, k1, v), k2, v);
  }

  lemma PutWellFormed(a: Aliases, k: string, v: string)
    requires WellFormed(a)
    ensures WellFormed(Put(a, k, v))
  {
  }

  /** `mfr_map[k] = v` on the dict held as its key order and its mapping. */
  method Assign(keys: seq<string>, names: map<string, string>, k: string, v: string)
    returns (keys': seq<string>, names': map<string, string>)
    ensures Aliases(keys', names') == Put(Aliases(keys, names), k, v)
  {
    keys' := if k in names then keys else keys + [k];
    names' := names[k := v];
  }

  // ---------------------------------------------------------------------------
  // Company resolution
  // ---------------------------------------------------------------------------

  /** `safe_company in key or key in safe_company`. */
  predicate Related(safe: string, key: string) {
    Contains(key, safe) || Contains(safe, key)
  }

  /** The first key at or after `i` related to `safe`, by its position. */
  function FirstRelated(keys: seq<string>, safe: string, i: nat): (r: Option<nat>)
    requires i <= |keys|
    ensures r.Some? ==> i <= r.value < |keys| && Related(safe, keys[r.value])
    ensures r.Some? ==> forall j :: i <= j < r.value ==> !Related(safe, keys[j])
    ensures r.None? ==> forall j :: i <= j < |keys| ==> !Related(safe, keys[j])
    decreases |keys| - i
  {
    if i == |keys| then None
    else if Related(safe, keys[i]) then Some(i)
    else FirstRelated(keys, safe, i + 1)
  }

  /**
   * Step 3's company resolution for a stripped company name: the manufacturer its alias maps
   * to; failing that, the one of the first alias, in map order, that contains it or that it
   * contains; failing that, or when the name found is empty, the company name itself.
   */
  function Resolve(a: Aliases, company: string): string
    requires WellFormed(a)
  {
    var safe := Normalize(company);
    var found :=
      if safe in a.names then Some(a.names[safe])
      else match FirstRelated(a.keys, safe, 0)
        case None => None
        case Some(i) => Some(a.names[a.keys[i]]);
    if found.None? || found.value == "" then company else found.value
  }

  /** An exact alias wins. */
  lemma ResolveExact(a: Aliases, company: string)
    requires WellFormed(a)
    requires Normalize(company) in a.names && a.names[Normalize(company)] != ""
    ensures Resolve(a, company) == a.names[Normalize(company)]
  {
  }

  /** Without an exact alias, the first related alias in map order wins, whatever comes after it. */
  lemma ResolveFirstRelated(a: Aliases, company: string, i: nat)
    requires WellFormed(a)
    requires Normalize(company) !in a.names
    requires i < |a.keys| && Related(Normalize(company), a.keys[i])
    requires forall j :: 0 <= j < i ==> !Related(Normalize(company), a.keys[j])
    requires a.names[a.keys[i]] != ""
    ensures Resolve(a, company) == a.names[a.keys[i]]
  {
    FirstRelatedAt(a.keys, Normalize(company), 0, i);
  }

  lemma {:induction false} FirstRelatedAt(keys: seq<string>, safe: string, j: nat, i: nat)
    requires j <= i < |keys| && Related(safe, keys[i])
    requires forall m :: j <= m < i ==> !Related(safe, keys[m])
    ensures FirstRelated(keys, safe, j) == Some(i)
    decreases i - j
  {
    if j < i {
      FirstRelatedAt(keys, safe, j + 1, i);
    }
  }

  /** With no exact alias and no related one, the company name is used as it is. */
  lemma ResolveFallback(a: Aliases, company: string)
    requires WellFormed(a)
    requires Normalize(company) !in a.names
    requires forall j :: 0 <= j < |a.keys| ==> !Related(Normalize(company), a.keys[j])
    ensures Resolve(a, company) == company
  {
  }

  /**
   * A company that normalizes to nothing is contained in every alias: unless `''` is itself an
   * alias, it resolves to the manufacturer of the first alias in the map.
   */
  lemma BlankCompanyTakesFirst(a: Aliases, company: string)
    requires WellFormed(a)
    requires Normalize(company) == "" && "" !in a.names && a.keys != []
    requires a.names[a.keys[0]] != ""
    ensures Resolve(a, company) == a.names[a.keys[0]]
  {
    assert OccursAt(a.keys[0], "", 0);
    ResolveFirstRelated(a, company, 0);
  }

  /** The resolution loop of step 3, which stops at the first related alias. */
  method ResolveCompany(keys: seq<string>, names: map<string, string>, company: string) returns (mfr: string)
    requires WellFormed(Aliases(keys, names))
    ensures mfr == Resolve(Aliases(keys, names), company)
  {
    var safeCompany := Normalize(company);
    var dbMfrName: Option<string> := None;
    if safeCompany in names {
      dbMfrName := Some(names[safeCompany]);
    } else {
      var i := 0;
      while i < |keys|
        invariant 0 <= i <= |keys|
        invariant FirstRelated(keys, safeCompany, 0) == FirstRelated(keys, safeCompany, i)
        invariant dbMfrName.None?
      {
        if Related(safeCompany, keys[i]) {
          dbMfrName := Some(names[keys[i]]);
          break;
        }
        i := i + 1;
      }
    }
    if dbMfrName.None? || dbMfrName.value == "" {
      mfr := company;
    } else {
      mfr := dbMfrName.value;
    }
  }

  // ---------------------------------------------------------------------------
  // The index of existing brands
  // ---------------------------------------------------------------------------

  /** A row of step 2's query: a brand with its manufacturer's name and its stored price. */
  datatype Brand = Brand(id: int, name: string, manufacturer: string, price: Option<real>)

  /** `{'id': brand_id, 'current_price': price}`. */
  datatype Existing = Existing(id: int, currentPrice: Option<real>)

  type Key = (string, string)

  /** `(normalize(name), normalize(mfr_name))`. */
  function BrandKey(b: Brand): Key {
    (Normalize(b.name), Normalize(b.manufacturer))
  }

  function EntryOf(b: Brand): Existing {
    Existing(b.id, b.price)
  }

  /** The dict the loop of step 2 fills: each row under its key, a later row replacing an earlier one. */
  function Index<B>(bs: seq<B>, key: B -> Key, entry: B -> Existing): map<Key, Existing> {
    if bs == [] then map[]
    else Index(bs[..|bs| - 1], key, entry)[key(bs[|bs| - 1]) := entry(bs[|bs| - 1])]
  }

  /** `existing` after step 2. */
  function BrandIndex(brands: seq<Brand>): map<Key, Existing> {
    Index(brands, BrandKey, EntryOf)
  }

  /** A key is in the index exactly when some brand has it. */
  lemma {:induction false} IndexKeys<B>(bs: seq<B>, key: B -> Key, entry: B -> Existing, k: Key)
    ensures k in Index(bs, key, entry) <==> exists i :: 0 <= i < |bs| && key(bs[i]) == k
  {
    if bs != [] {
      var init := bs[..|bs| - 1];
      IndexKeys(init, key, entry, k);
      assert forall i :: 0 <= i < |init| ==> init[i] == bs[i];
      if key(bs[|bs| - 1]) == k {
        assert 0 <= |bs| - 1 < |bs| && key(bs[|bs| - 1]) == k;
      }
    }
  }

  /** The entry under a key comes from the last brand with that key. */
  lemma {:induction false} IndexLastWins<B>(bs: seq<B>, key: B -> Key, entry: B -> Existing, i: nat)
    requires i < |bs|
    requires forall j :: i < j < |bs| ==> key(bs[j]) != key(bs[i])
    ensures key(bs[i]) in Index(bs, key, entry) && Index(bs, key, entry)[key(bs[i])] == entry(bs[i])
  {
    if i < |bs| - 1 {
      var init := bs[..|bs| - 1];
      assert init[i] == bs[i];
      assert forall j :: i < j < |init| ==> init[j] == bs[j];
      IndexLastWins(init, key, entry, i);
    }
  }

  /** Step 2 of `load_new_prices`: the loop that fills `existing`. */
  method BuildBrandIndex(brands: seq<Brand>) returns (existing: map<Key, Existing>)
    ensures existing == BrandIndex(brands)
  {
    existing := map[];
    var i := 0;
    while i < |brands|
      invariant 0 <= i <= |brands|
      invariant existing == Index(brands[..i], BrandKey, EntryOf)
    {
      assert brands[..i + 1][..i] == brands[..i];
      var key := (Normalize(brands[i].name), Normalize(brands[i].manufacturer));
      existing := existing[key := Existing(brands[i].id, brands[i].price)];
      i := i + 1;
    }
    assert brands[..i] == brands;
  }

  // ---------------------------------------------------------------------------
  // Matching and updating
  // ---------------------------------------------------------------------------

  /** A row of the new price list, its price already read by `float`. */
  datatype PriceRow = PriceRow(name: string, company: string, price: real)

  /** An entry of `not_found`: the row's name and stripped company, and the manufacturer tried. */
  datatype Miss = Miss(name: string, company: string, analyzedAs: string)

  /** What step 3 does with one row. */
  datatype Outcome =
    | Unmatched(miss: Miss)
    | Matched(id: int, newPrice: real, write: bool)

  /** `old_price is None or abs(old_price - new_price) > 0.01`. */
  predicate Differs(oldPrice: Option<real>, newPrice: real) {
    oldPrice.None? || Discrepancy.Abs(oldPrice.value - newPrice) > 0.01
  }

  /** Step 3 for one row: resolve its company, look up its key, and decide whether to write. */
  function OutcomeOf(a: Aliases, existing: map<Key, Existing>, row: PriceRow): (out: Outcome)
    requires WellFormed(a)
  {
    var company := Strip(row.company);
    var mfr := Resolve(a, company);
    var key := (Normalize(row.name), Normalize(mfr));
    if key in existing then Matched(existing[key].id, row.price, Differs(existing[key].currentPrice, row.price))
    else Unmatched(Miss(row.name, company, mfr))
  }

  /** A price within a cent of the stored one is never written. */
  lemma CloseEnoughKept(a: Aliases, existing: map<Key, Existing>, row: PriceRow, p: real)
    requires WellFormed(a)
    requires OutcomeOf(a, existing, row).Matched?
    requires existing[(Normalize(row.name), Normalize(Resolve(a, Strip(row.company))))].currentPrice == Some(p)
    requires p - 0.01 <= row.price <= p + 0.01
    ensures !OutcomeOf(a, existing, row).write
  {
  }

  function Outcomes(a: Aliases, existing: map<Key, Existing>, rows: seq<PriceRow>): (outs: seq<Outcome>)
    requires WellFormed(a)
    ensures |outs| == |rows|
    ensures forall i :: 0 <= i < |rows| ==> outs[i] == OutcomeOf(a, existing, rows[i])
  {
    seq(|rows|, i requires 0 <= i < |rows| => OutcomeOf(a, existing, rows[i]))
  }

  function CountMatched(outs: seq<Outcome>): nat {
    if outs == [] then 0 else CountMatched(outs[..|outs| - 1]) + (if outs[|outs| - 1].Matched? then 1 else 0)
  }

  function CountWritten(outs: seq<Outcome>): nat {
    if outs == [] then 0
    else CountWritten(outs[..|outs| - 1]) + (if outs[|outs| - 1].Matched? && outs[|outs| - 1].write then 1 else 0)
  }

  function Misses(outs: seq<Outcome>): seq<Miss> {
    if outs == [] then []
    else Misses(outs[..|outs| - 1]) + (if outs[|outs| - 1].Unmatched? then [outs[|outs| - 1].miss] else [])
  }

  /** `UPDATE brands SET price = ? WHERE id = ?` for every written row, in row order. */
  function Apply(prices: map<int, Option<real>>, outs: seq<Outcome>): map<int, Option<real>> {
    if outs == [] then prices
    else
      var p := Apply(prices, outs[..|outs| - 1]);
      var o := outs[|outs| - 1];
      if o.Matched? && o.write && o.id in p then p[o.id := Some(o.newPrice)] else p
  }

  /** Every row is either matched or listed as not found, and only matched rows are written. */
  lemma {:induction false} OutcomeCounts(outs: seq<Outcome>)
    ensures CountMatched(outs) + |Misses(outs)| == |outs|
    ensures CountWritten(outs) <= CountMatched(outs)
  {
    if outs != [] {
      OutcomeCounts(outs[..|outs| - 1]);
    }
  }

  /** The update never adds or removes a brand. */
  lemma {:induction false} ApplyKeys(prices: map<int, Option<real>>, outs: seq<Outcome>)
    ensures Apply(prices, outs).Keys == prices.Keys
  {
    if outs != [] {
      ApplyKeys(prices, outs[..|outs| - 1]);
    }
  }

  /**
   * A brand ends with the price of the last row written to it. Each row is compared with the
   * price read in step 2, not with one written by an earlier row.
   */
  lemma {:induction false} LastWriteWins(prices: map<int, Option<real>>, outs: seq<Outcome>, id: int, i: nat)
    requires id in prices
    requires i < |outs| && outs[i].Matched? && outs[i].write && outs[i].id == id
    requires forall j :: i < j < |outs| ==> !(outs[j].Matched? && outs[j].write && outs[j].id == id)
    ensures id in Apply(prices, outs) && Apply(prices, outs)[id] == Some(outs[i].newPrice)
  {
    var init := outs[..|outs| - 1];
    ApplyKeys(prices, init);
    if i < |outs| - 1 {
      assert init[i] == outs[i];
      assert forall j :: i < j < |init| ==> init[j] == outs[j];
      LastWriteWins(prices, init, id, i);
    }
  }

  /** A brand no row writes keeps its stored price. */
  lemma {:induction false} UnwrittenKept(prices: map<int, Option<real>>, outs: seq<Outcome>, id: int)
    requires id in prices
    requires forall j :: 0 <= j < |outs| ==> !(outs[j].Matched? && outs[j].write && outs[j].id == id)
    ensures id in Apply(prices, outs) && Apply(prices, outs)[id] == prices[id]
  {
    if outs != [] {
      var init := outs[..|outs| - 1];
      assert forall j :: 0 <= j < |init| ==> init[j] == outs[j];
      UnwrittenKept(prices, init, id);
    }
  }

  lemma OutcomeStep(prices: map<int, Option<real>>, outs: seq<Outcome>, i: nat)
    requires i < |outs|
    ensures var o := outs[i];
      && CountMatched(outs[..i + 1]) == CountMatched(outs[..i]) + (if o.Matched? then 1 else 0)
      && CountWritten(outs[..i + 1]) == CountWritten(outs[..i]) + (if o.Matched? && o.write then 1 else 0)
      && Misses(outs[..i + 1]) == Misses(outs[..i]) + (if o.Unmatched? then [o.miss] else [])
      && Apply(prices, outs[..i + 1])
         == if o.Matched? && o.write && o.id in Apply(prices, outs[..i])
            then Apply(prices, outs[..i])[o.id := Some(o.newPrice)] else Apply(prices, outs[..i])
  {
    assert outs[..i + 1][..i] == outs[..i];
  }

  lemma NoOutcomes(outs: seq<Outcome>, prices: map<int, Option<real>>)
    ensures CountMatched(outs[..0]) == 0 && CountWritten(outs[..0]) == 0
    ensures Misses(outs[..0]) == [] && Apply(prices, outs[..0]) == prices
  {
    assert outs[..0] == [];
  }

  /** The price column of the `brands` table, by brand id. */
  class PriceTable {
    var price: map<int, Option<real>>

    constructor(price: map<int, Option<real>>)
      ensures this.price == price
    {
      this.price := price;
    }

    /** `UPDATE brands SET price = ? WHERE id = ?`: a missing id changes nothing. */
    method SetPrice(id: int, p: real)
      modifies this
      ensures price == if id in old(price) then old(price)[id := Some(p)] else old(price)
    {
      if id in price {
        price := price[id := Some(p)];
      }
    }
  }

  /** Step 3 for one row: its outcome, with the company resolved by the loop. */
  method RowOutcome(keys: seq<string>, names: map<string, string>, existing: map<Key, Existing>, row: PriceRow)
    returns (out: Outcome)
    requires WellFormed(Aliases(keys, names))
    ensures out == OutcomeOf(Aliases(keys, names), existing, row)
  {
    var company := Strip(row.company);
    var dbMfrName := ResolveCompany(keys, names, company);
    var key := (Normalize(row.name), Normalize(dbMfrName));
    if key in existing {
      var found := existing[key];
      out := Matched(found.id, row.price,
                     found.currentPrice.None? || Discrepancy.Abs(found.currentPrice.value - row.price) > 0.01);
    } else {
      out := Unmatched(Miss(row.name, company, dbMfrName));
    }
  }

  /** One pass of step 3: row `i` is resolved, counted, and written or listed as not found. */
  method ProcessRow(db: PriceTable, keys: seq<string>, names: map<string, string>, existing: map<Key, Existing>,
                    row: PriceRow, ghost outs: seq<Outcome>, ghost prices: map<int, Option<real>>, i: nat,
                    matched: nat, updated: nat, notFound: seq<Miss>)
    returns (matched': nat, updated': nat, notFound': seq<Miss>)
    requires WellFormed(Aliases(keys, names))
    requires i < |outs| && outs[i] == OutcomeOf(Aliases(keys, names), existing, row)
    requires matched == CountMatched(outs[..i]) && updated == CountWritten(outs[..i])
    requires notFound == Misses(outs[..i]) && db.price == Apply(prices, outs[..i])
    modifies db
    ensures matched' == CountMatched(outs[..i + 1]) && updated' == CountWritten(outs[..i + 1])
    ensures notFound' == Misses(outs[..i + 1]) && db.price == Apply(prices, outs[..i + 1])
  {
    var out := RowOutcome(keys, names, existing, row);
    OutcomeStep(prices, outs, i);
    matched', updated', notFound' := matched, updated, notFound;
    match out {
      case Unmatched(miss) =>
        notFound' := notFound + [miss];
      case Matched(id, newPrice, write) =>
        matched' := matched + 1;
        if write {
          db.SetPrice(id, newPrice);
          updated' := updated + 1;
        }
    }
  }

  /**
   * `load_new_prices` on the manufacturers, the brands and the new rows read: the counts, the
   * rows not found, and the price table after the writes.
   */
  method LoadNewPrices(db: PriceTable, mfrs: seq<string>, brands: seq<Brand>, rows: seq<PriceRow>)
    returns (matched: nat, updated: nat, notFound: seq<Miss>)
    modifies db
    ensures var outs := Outcomes(AliasMap(mfrs), BrandIndex(brands), rows);
      && matched == CountMatched(outs)
      && updated == CountWritten(outs)
      && notFound == Misses(outs)
      && db.price == Apply(old(db.price), outs)
  {
    var keys, names := BuildAliasMap(mfrs);
    var existing := BuildBrandIndex(brands);
    ghost var outs := Outcomes(Aliases(keys, names), existing, rows);
    ghost var prices := db.price;
    matched, updated, notFound := 0, 0, [];
    var i := 0;
    NoOutcomes(outs, prices);
    while i < |rows|
      invariant 0 <= i <= |rows|
      invariant matched == CountMatched(outs[..i])
      invariant updated == CountWritten(outs[..i])
      invariant notFound == Misses(outs[..i])
      invariant db.price == Apply(prices, outs[..i])
    {
      matched, updated, notFound := ProcessRow(db, keys, names, existing, rows[i], outs, prices, i, matched, updated, notFound);
      i := i + 1;
    }
    assert outs[..i] == outs;
  }
}
