/**
 * `mark_verified_prices.py`: reset every brand to ESTIMATED, gather the normalized names (and
 * long enough first words) of the external price list's priced rows, and mark VERIFIED every
 * brand whose normalized name or first word is among them.
 */
module MarkVerified {
  import opened Wrappers
  import opened Text
  import opened CsvRows
  import opened BrandsTable

  // ---------------------------------------------------------------------------
  // normalize
  // ---------------------------------------------------------------------------

  /** The alternatives of the dosage-form group of the suffix pattern, in the pattern's order. */
  const DosageForms: seq<string> := [
    "tablet", "syrup", "injection", "capsule", "cream", "ointment", "drops", "gel",
    "suspension", "solution", "powder", "inhaler", "spray"]

  /** `t` is one of `forms`. */
  predicate OneOf(t: string, forms: seq<string>)
    decreases |forms|
  {
    forms != [] && (forms[0] == t || OneOf(t, forms[1..]))
  }

  predicate LowerWord(t: string) {
    t != [] && forall i :: 0 <= i < |t| ==> IsLowerLetter(t[i])
  }

  /**
   * `(tablet|...|spray)s?` matching the whole of `t`. Every alternative is a lower-case word,
   * so the leading conjunct only states what the alternatives already imply.
   */
  predicate FormWord(t: string) {
    LowerWord(t) && (OneOf(t, DosageForms) || (t[|t| - 1] == 's' && OneOf(t[..|t| - 1], DosageForms)))
  }

  /**
   * `\s*(tablet|...|spray)s?$` matches at `i`. The dosage-form words start with a letter, so
   * `\s*` takes the whole whitespace run at `i`, and `$` makes the word end the string.
   */
  predicate SuffixAt(s: string, i: nat) {
    i <= |s| && FormWord(s[SkipSpaces(s, i)..])
  }

  /** The first position at or after `i` where the suffix pattern matches, or `|s|` when there is none. */
  function FirstSuffix(s: string, i: nat): (k: nat)
    requires i <= |s|
    ensures i <= k <= |s|
    ensures k < |s| ==> SuffixAt(s, k)
    ensures forall j :: i <= j < k ==> !SuffixAt(s, j)
    decreases |s| - i
  {
    if i == |s| then |s| else if SuffixAt(s, i) then i else FirstSuffix(s, i + 1)
  }

  /** The pattern cannot match at the very end: a dosage form is never empty. */
  lemma NoSuffixAtEnd(s: string)
    ensures !SuffixAt(s, |s|)
  {
    assert s[SkipSpaces(s, |s|)..] == [];
  }

  /**
   * The suffix substitution of `normalize`: the leftmost match, which runs to the end of the
   * string, is deleted. There is no word boundary before the dosage form, and after a match
   * at the end nothing is left to search, so at most one suffix goes.
   */
  function DropFormSuffix(s: string): (r: string)
    ensures |r| <= |s| && r == s[..|r|]
    ensures r != s ==> SuffixAt(s, |r|)
    ensures forall k :: 0 <= k < |r| ==> !SuffixAt(s, k)
  {
    s[..FirstSuffix(s, 0)]
  }

  /** `re.sub(r'[^\w\s]', ' ', s)`: every character that is neither a word character nor whitespace becomes a space. */
  function Depunctuate(s: string): (r: string)
    ensures |r| == |s|
    ensures forall i :: 0 <= i < |s| ==> r[i] == if IsWordChar(s[i]) || IsSpace(s[i]) then s[i] else ' '
  {
    seq(|s|, i requires 0 <= i < |s| => if IsWordChar(s[i]) || IsSpace(s[i]) then s[i] else ' ')
  }

  /** Lower-case word characters and single spaces, with no space at either end. */
  predicate Clean(s: string) {
    && Trimmed(s)
    && SingleSpaced(s)
    && forall i :: 0 <= i < |s| ==> (IsWordChar(s[i]) || s[i] == ' ') && !IsUpper(s[i])
  }

  /** A lower-case word character or a space. */
  predicate CleanChar(c: char) {
    (IsWordChar(c) || c == ' ') && !IsUpper(c)
  }

  predicate NoUpper(s: string) {
    forall i :: 0 <= i < |s| ==> !IsUpper(s[i])
  }

  /**
   * The last three steps of `normalize`: punctuation becomes a space, whitespace runs
   * collapse to one space, and the ends are stripped.
   */
  function Tidy(s: string): (r: string)
    requires NoUpper(s)
    ensures Clean(r)
  {
    var p := Depunctuate(s);
    var c := CollapseSpaces(p);
    CleanAfterCollapse(p);
    CleanOfStrip(c);
    Strip(c)
  }

  /** The collapsed depunctuated text of a lower-case string holds only clean characters. */
  lemma CleanAfterCollapse(p: string)
    requires forall i :: 0 <= i < |p| ==> (IsWordChar(p[i]) || IsSpace(p[i])) && !IsUpper(p[i])
    ensures forall i :: 0 <= i < |CollapseSpaces(p)| ==> CleanChar(CollapseSpaces(p)[i])
  {
    var f := (c: char) => (IsWordChar(c) || IsSpace(c)) && !IsUpper(c);
    CollapseKeepsChars(p, f);
    var c := CollapseSpaces(p);
    forall i | 0 <= i < |c| ensures CleanChar(c[i]) {
      assert f(c[i]);
    }
  }

  lemma CleanOfStrip(c: string)
    requires SingleSpaced(c) && forall i :: 0 <= i < |c| ==> CleanChar(c[i])
    ensures Clean(Strip(c))
  {
    var a := SkipSpaces(c, 0);
    var b := BackSpaces(c, a, |c|);
    var r := Strip(c);
    assert r == c[a..b];
    assert SingleSpaced(r) by { SliceSingleSpaced(c, a, b); }
    assert Trimmed(r);
    forall i | 0 <= i < |r| ensures (IsWordChar(r[i]) || r[i] == ' ') && !IsUpper(r[i]) {
      assert r[i] == c[a + i] && CleanChar(c[a + i]);
    }
  }

  /** A clean string is left as it is by the last three steps. */
  lemma TidyFixed(s: string)
    requires Clean(s)
    ensures Tidy(s) == s
  {
    assert Depunctuate(s) == s;
    CollapseSpacesFixed(s);
    if s != [] {
      assert SkipSpaces(s, 0) == 0;
      assert BackSpaces(s, 0, |s|) == |s|;
    }
  }

  /** The first steps of `normalize` leave no upper-case letter. */
  lemma LoweredDropNoUpper(name: string)
    ensures NoUpper(DropFormSuffix(Strip(Lower(name))))
  {
    var l := Lower(name);
    var a := SkipSpaces(l, 0);
    NoUpperSlice(l, a, BackSpaces(l, a, |l|));
    var s := Strip(l);
    NoUpperSlice(s, 0, |DropFormSuffix(s)|);
  }

  lemma NoUpperSlice(s: string, a: nat, b: nat)
    requires a <= b <= |s| && NoUpper(s)
    ensures NoUpper(s[a..b])
  {
    assert forall i :: 0 <= i < b - a ==> s[a..b][i] == s[a + i];
  }

  /**
   * `normalize`: `""` for an empty name; otherwise lower-case and strip, drop one trailing
   * dosage form, turn punctuation into spaces, collapse whitespace runs and strip again.
   */
  function Normalize(name: string): (r: string)
    ensures Clean(r)
  {
    if name == "" then ""
    else
      LoweredDropNoUpper(name);
      Tidy(DropFormSuffix(Strip(Lower(name))))
  }

  /** Lower-casing and stripping a lower-case string without spaces at its ends changes nothing. */
  lemma StripLowerFixed(s: string)
    requires Trimmed(s) && NoUpper(s)
    ensures Strip(Lower(s)) == s
  {
    assert Lower(s) == s;
    if s != [] {
      assert SkipSpaces(s, 0) == 0;
      assert BackSpaces(s, 0, |s|) == |s|;
    }
  }

  /** A clean string with no dosage-form suffix is its own normal form. */
  lemma NormalizeFixed(s: string)
    requires Clean(s)
    requires forall k :: 0 <= k <= |s| ==> !SuffixAt(s, k)
    ensures Normalize(s) == s
  {
    if s != "" {
      StripLowerFixed(s);
      assert DropFormSuffix(s) == s;
      TidyFixed(s);
    }
  }

  /** In a clean name, a space and a dosage form: the leftmost suffix match is at that space. */
  lemma DropAtSeparator(base: string, w: string)
    requires Clean(base) && base != ""
    requires FormWord(w)
    ensures DropFormSuffix(base + " " + w) == base
  {
    var s := base + " " + w;
    var n := |base|;
    JoinedAt(base, ' ', w);
    assert SkipSpaces(s, n) == n + 1 by {
      assert s[n + 1] == w[0];
      assert SkipSpaces(s, n + 1) == n + 1;
    }
    assert SuffixAt(s, n);
    forall k | 0 <= k < n ensures !SuffixAt(s, k) {
      var j := SkipSpaces(s, k);
      assert j < n by {
        assert s[n - 1] == base[n - 1];
      }
      var t := s[j..];
      assert t[n - j] == ' ';
    }
  }

  /** A clean name, a space and a dosage form: no edge whitespace and no upper case. */
  lemma JoinedClean(base: string, w: string)
    requires Clean(base) && base != ""
    requires FormWord(w)
    ensures Trimmed(base + " " + w) && NoUpper(base + " " + w)
  {
    var s := base + " " + w;
    var n := |base|;
    JoinedAt(base, ' ', w);
    assert s[0] == base[0];
    assert s[|s| - 1] == w[|w| - 1];
    forall i | 0 <= i < |s| ensures !IsUpper(s[i]) {
      if i < n {
        assert s[i] == s[..n][i];
      } else if n < i {
        assert s[i] == s[n + 1..][i - n - 1];
      }
    }
  }

  /**
   * A clean name followed by a space and a dosage form normalizes to the name: the form
   * goes, and only that one, even when the name itself ends in a dosage form.
   */
  lemma DosageFormDropped(base: string, w: string)
    requires Clean(base) && base != ""
    requires FormWord(w)
    ensures Normalize(base + " " + w) == base
  {
    var s := base + " " + w;
    JoinedClean(base, w);
    StripLowerFixed(s);
    DropAtSeparator(base, w);
    TidyFixed(base);
  }

  /**
   * The same in any case and with any surrounding whitespace: the name is lower-cased and
   * stripped before the pattern is applied, so only the lower-cased stripped text matters.
   */
  lemma DosageFormDroppedAnyCase(name: string, base: string, w: string)
    requires name != "" && Clean(base) && base != ""
    requires FormWord(w)
    requires Strip(Lower(name)) == base + " " + w
    ensures Normalize(name) == base
  {
    DropAtSeparator(base, w);
    TidyFixed(base);
  }

  /** A dosage form alone normalizes to the empty string. */
  lemma FormAloneVanishes(w: string)
    requires FormWord(w)
    ensures Normalize(w) == ""
  {
    StripLowerFixed(w);
    assert SkipSpaces(w, 0) == 0;
    assert SuffixAt(w, 0);
    assert DropFormSuffix(w) == "";
    assert Tidy("") == "";
  }

  /**
   * One pass only: a dosage form followed by another (as in "gel tablets") normalizes to the
   * first, which normalizing again removes.
   */
  lemma NormalizeNotIdempotent(f: string, w: string)
    requires FormWord(f) && FormWord(w)
    ensures Normalize(f + " " + w) == f
    ensures Normalize(Normalize(f + " " + w)) == ""
  {
    assert Clean(f) by {
      assert SkipSpaces(f, 0) == 0;
    }
    DosageFormDropped(f, w);
    FormAloneVanishes(f);
  }

  // ---------------------------------------------------------------------------
  // real_names
  // ---------------------------------------------------------------------------

  /** `if name and price and price.strip() and price != '0'`. */
  predicate PricedRow(row: Row) {
    var name, price := Get(row, "medicine_name"), Get(row, "price");
    name != "" && price != "" && Strip(price) != "" && price != "0"
  }

  /**
   * The names a row of the price list adds to `real_names`: its normalized name, and the
   * first word of that when longer than 3 characters; none when the row has no usable price.
   */
  function RowNames(row: Row): (names: set<string>)
    ensures !PricedRow(row) ==> names == {}
    ensures PricedRow(row) ==> names == NamesOf(Normalize(Get(row, "medicine_name")))
  {
    if !PricedRow(row) then {} else NamesOf(Normalize(Get(row, "medicine_name")))
  }

  /**
   * The names a normalized name contributes: itself, and its first word when that is longer
   * than 3 characters.
   */
  function NamesOf(n: string): (names: set<string>)
    ensures n in names
    ensures |FirstWord(n)| > 3 ==> FirstWord(n) in names
    ensures forall k :: k in names ==> k == n || (k == FirstWord(n) && |k| > 3)
  {
    var w := FirstWord(n);
    {n} + (if |w| > 3 then {w} else {})
  }

  /** The union of the sets `f` gives the rows, accumulated in row order. */
  function UnionOf<R>(rows: seq<R>, f: R -> set<string>): set<string> {
    if rows == [] then {} else UnionOf(rows[..|rows| - 1], f) + f(rows[|rows| - 1])
  }

  lemma UnionOfSnoc<R>(rows: seq<R>, f: R -> set<string>, i: nat)
    requires i < |rows|
    ensures UnionOf(rows[..i + 1], f) == UnionOf(rows[..i], f) + f(rows[i])
  {
    assert rows[..i + 1][..i] == rows[..i];
  }

  /** A string is in the union exactly when some row's set holds it. */
  lemma {:induction false} UnionOfMeaning<R>(rows: seq<R>, f: R -> set<string>, k: string)
    ensures k in UnionOf(rows, f) <==> exists i :: 0 <= i < |rows| && k in f(rows[i])
  {
    if rows != [] {
      var n := |rows| - 1;
      var init := rows[..n];
      UnionOfMeaning(init, f, k);
      if k in UnionOf(init, f) {
        var i :| 0 <= i < |init| && k in f(init[i]);
        assert init[i] == rows[i];
      } else if k in f(rows[n]) {
        assert 0 <= n < |rows| && k in f(rows[n]);
      } else {
        forall i | 0 <= i < |rows| ensures k !in f(rows[i]) {
          if i < n {
            assert init[i] == rows[i];
          }
        }
      }
    }
  }

  /** `real_names` after the loop over the rows of the price list. */
  function RealNames(rows: seq<Row>): set<string> {
    UnionOf(rows, RowNames)
  }

  /** A name is in `real_names` exactly when some row of the price list adds it. */
  lemma RealNamesMeaning(rows: seq<Row>, k: string)
    ensures k in RealNames(rows) <==> exists i :: 0 <= i < |rows| && k in RowNames(rows[i])
  {
    UnionOfMeaning(rows, RowNames, k);
  }

  /** A priced row whose name normalizes to nothing puts the empty string in `real_names`. */
  lemma EmptyNameListed(rows: seq<Row>, i: nat)
    requires i < |rows| && PricedRow(rows[i]) && Normalize(Get(rows[i], "medicine_name")) == ""
    ensures "" in RealNames(rows)
  {
    RealNamesMeaning(rows, "");
  }

  /** One pass of the loop: the row's names join the set. */
  method AddRowNames(realNames: set<string>, row: Row) returns (names: set<string>)
    ensures names == realNames + RowNames(row)
  {
    names := realNames;
    if PricedRow(row) {
      names := AddNames(names, Normalize(Get(row, "medicine_name")));
    }
  }

  /** The pass over row `i`: the names of the rows before it, then its own. */
  method AddRowNamesAt(realNames: set<string>, rows: seq<Row>, i: nat) returns (names: set<string>)
    requires i < |rows| && realNames == UnionOf(rows[..i], RowNames)
    ensures names == UnionOf(rows[..i + 1], RowNames)
  {
    names := AddRowNames(realNames, rows[i]);
    UnionOfSnoc(rows, RowNames, i);
  }

  /** `real_names.add(norm)`, then the first word when it is longer than 3 characters. */
  method AddNames(realNames: set<string>, n: string) returns (names: set<string>)
    ensures names == realNames + NamesOf(n)
  {
    names := realNames + {n};
    var firstWord := if n != "" then FirstWord(n) else "";
    if |firstWord| > 3 {
      names := names + {firstWord};
    }
  }

  lemma NoRowsNoNames(rows: seq<Row>)
    ensures RealNames(rows[..0]) == {}
  {
    assert rows[..0] == [];
  }

  /** Step 2 of `main`: the set of searchable names of the price list. */
  method CollectRealNames(rows: seq<Row>) returns (realNames: set<string>)
    ensures realNames == RealNames(rows)
  {
    realNames := {};
    var i := 0;
    NoRowsNoNames(rows);
    while i < |rows|
      invariant 0 <= i <= |rows|
      invariant realNames == UnionOf(rows[..i], RowNames)
    {
      realNames := AddRowNamesAt(realNames, rows, i);
      i := i + 1;
    }
    assert rows[..i] == rows;
  }

  // ---------------------------------------------------------------------------
  // Matching
  // ---------------------------------------------------------------------------

  /** `norm in real_names or first_word in real_names`. */
  predicate Matches(name: string, realNames: set<string>) {
    var n := Normalize(name);
    n in realNames || FirstWord(n) in realNames
  }

  function Matching(realNames: set<string>): StoredBrand -> bool {
    (b: StoredBrand) => Matches(b.name, realNames)
  }

  /** A brand row after `main`: VERIFIED when it matches, ESTIMATED otherwise; name and price untouched. */
  function MarkMatched(b: StoredBrand, realNames: set<string>): (r: StoredBrand)
    ensures r.name == b.name && r.price == b.price
    ensures r.verified <==> Matches(b.name, realNames)
    ensures r.confidence == if r.verified then "VERIFIED" else "ESTIMATED"
  {
    var e := Estimated(b);
    if Matches(b.name, realNames) then e.(verified := true, confidence := "VERIFIED") else e
  }

  function MarkAllMatched(rows: seq<StoredBrand>, realNames: set<string>): (r: seq<StoredBrand>)
    ensures |r| == |rows|
    ensures forall i :: 0 <= i < |rows| ==> r[i] == MarkMatched(rows[i], realNames)
  {
    seq(|rows|, i requires 0 <= i < |rows| => MarkMatched(rows[i], realNames))
  }

  /** The number of brand rows that match. */
  function CountMatched(rows: seq<StoredBrand>, realNames: set<string>): nat {
    CountWhere(rows, Matching(realNames))
  }

  /** A row after the matching loop has looked at it: a matching row is VERIFIED, any other left alone. */
  function VerifyMatching(b: StoredBrand, realNames: set<string>): StoredBrand {
    if Matches(b.name, realNames) then b.(verified := true, confidence := "VERIFIED") else b
  }

  function VerifyAllMatching(rows: seq<StoredBrand>, realNames: set<string>): (r: seq<StoredBrand>)
    ensures |r| == |rows|
    ensures forall i :: 0 <= i < |rows| ==> r[i] == VerifyMatching(rows[i], realNames)
  {
    seq(|rows|, i requires 0 <= i < |rows| => VerifyMatching(rows[i], realNames))
  }

  lemma VerifyMatchingStep(rows: seq<StoredBrand>, realNames: set<string>, i: nat)
    requires i < |rows|
    ensures (VerifyAllMatching(rows[..i], realNames) + rows[i..])[i := VerifyMatching(rows[i], realNames)]
            == VerifyAllMatching(rows[..i + 1], realNames) + rows[i + 1..]
  {
    var a := (VerifyAllMatching(rows[..i], realNames) + rows[i..])[i := VerifyMatching(rows[i], realNames)];
    var b := VerifyAllMatching(rows[..i + 1], realNames) + rows[i + 1..];
    assert |a| == |b|;
    var done, next := VerifyAllMatching(rows[..i], realNames), VerifyAllMatching(rows[..i + 1], realNames);
    forall j | 0 <= j < |a| ensures a[j] == b[j] {
      if j < i {
        assert a[j] == done[j] == VerifyMatching(rows[..i][j], realNames);
        assert b[j] == next[j] == VerifyMatching(rows[..i + 1][j], realNames);
        assert rows[..i][j] == rows[j] == rows[..i + 1][j];
      } else if j == i {
        assert b[j] == next[i] == VerifyMatching(rows[..i + 1][i], realNames);
      } else {
        assert a[j] == rows[i..][j - i] == rows[j];
        assert b[j] == rows[i + 1..][j - i - 1] == rows[j];
      }
    }
  }

  /** After the run, the verified rows are exactly the matching ones. */
  lemma {:induction false} MatchedCount(rows: seq<StoredBrand>, realNames: set<string>)
    ensures CountVerified(MarkAllMatched(rows, realNames)) == CountMatched(rows, realNames)
  {
    if rows != [] {
      var init := rows[..|rows| - 1];
      MatchedCount(init, realNames);
      assert MarkAllMatched(rows, realNames)[..|rows| - 1] == MarkAllMatched(init, realNames);
    }
  }

  /**
   * Resetting first makes the outcome independent of the marks the rows had: tables that
   * agree on names and prices end up the same.
   */
  lemma MarksIgnored(rows1: seq<StoredBrand>, rows2: seq<StoredBrand>, realNames: set<string>)
    requires |rows1| == |rows2|
    requires forall i :: 0 <= i < |rows1| ==> rows1[i].name == rows2[i].name && rows1[i].price == rows2[i].price
    ensures MarkAllMatched(rows1, realNames) == MarkAllMatched(rows2, realNames)
  {
    var a, b := MarkAllMatched(rows1, realNames), MarkAllMatched(rows2, realNames);
    forall i | 0 <= i < |a| ensures a[i] == b[i] {
      assert a[i] == MarkMatched(rows1[i], realNames) && b[i] == MarkMatched(rows2[i], realNames);
    }
  }

  /**
   * Once the empty string is among the real names, every brand whose name normalizes to
   * nothing (an empty name, or a dosage form alone) matches.
   */
  lemma EmptyNormalMatches(name: string, realNames: set<string>)
    requires "" in realNames && Normalize(name) == ""
    ensures Matches(name, realNames)
  {
  }

  /** One pass of the matching loop over row `i`; `matched` says whether it matched. */
  method VerifyMatchingRow(store: Store, brands: seq<StoredBrand>, realNames: set<string>, i: nat) returns (matched: bool)
    requires i < |brands|
    requires store.rows == VerifyAllMatching(brands[..i], realNames) + brands[i..]
    modifies store
    ensures store.rows == VerifyAllMatching(brands[..i + 1], realNames) + brands[i + 1..]
    ensures CountMatched(brands[..i + 1], realNames) == CountMatched(brands[..i], realNames) + (if matched then 1 else 0)
  {
    var norm := Normalize(brands[i].name);
    var firstWord := if norm != "" then FirstWord(norm) else "";
    VerifyMatchingStep(brands, realNames, i);
    CountWhereSnoc(brands, Matching(realNames), i);
    matched := norm in realNames || firstWord in realNames;
    if matched {
      store.Verify(i);
    }
  }

  /** Step 3 of `main`: every matching row is marked VERIFIED and counted. */
  method VerifyAllMatches(store: Store, realNames: set<string>) returns (matched: nat)
    modifies store
    ensures store.rows == VerifyAllMatching(old(store.rows), realNames)
    ensures matched == CountMatched(old(store.rows), realNames)
  {
    var brands := store.rows;
    matched := 0;
    var i := 0;
    while i < |brands|
      invariant 0 <= i <= |brands|
      invariant store.rows == VerifyAllMatching(brands[..i], realNames) + brands[i..]
      invariant matched == CountMatched(brands[..i], realNames)
    {
      var hit := VerifyMatchingRow(store, brands, realNames, i);
      if hit {
        matched := matched + 1;
      }
      i := i + 1;
    }
    assert brands[..i] == brands;
    assert brands[i..] == [];
  }

  /** `main` after loading: reset every row to ESTIMATED, then verify the matching ones. */
  method MarkVerifiedPrices(store: Store, realNames: set<string>) returns (matched: nat)
    modifies store
    ensures store.rows == MarkAllMatched(old(store.rows), realNames)
    ensures matched == CountMatched(old(store.rows), realNames)
  {
    ghost var before := store.rows;
    store.ResetAll();
    matched := VerifyAllMatches(store, realNames);
    ResetThenVerify(before, realNames);
  }

  /** Verifying the reset rows is marking the original ones, and resetting keeps the match count. */
  lemma ResetThenVerify(rows: seq<StoredBrand>, realNames: set<string>)
    ensures VerifyAllMatching(ResetRows(rows), realNames) == MarkAllMatched(rows, realNames)
    ensures CountMatched(ResetRows(rows), realNames) == CountMatched(rows, realNames)
  {
    ResetKeepsCount(rows, realNames);
  }

  lemma {:induction false} ResetKeepsCount(rows: seq<StoredBrand>, realNames: set<string>)
    ensures CountMatched(ResetRows(rows), realNames) == CountMatched(rows, realNames)
  {
    if rows != [] {
      ResetKeepsCount(rows[..|rows| - 1], realNames);
      assert ResetRows(rows)[..|rows| - 1] == ResetRows(rows[..|rows| - 1]);
    }
  }
}
