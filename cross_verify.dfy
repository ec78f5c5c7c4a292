/**
 * The cross-source reconciliation engine: Medex records (rich medical information)
 * and DGDA records (the legal retail price) are joined on a normalised key, their
 * prices compared, and one verified record emitted per key, together with a report
 * of the keys whose prices disagree by more than 10%.
 */
module CrossVerify {
  import opened Wrappers
  import opened Text
  import opened Patterns

  /** A medicine record from any source. */
  datatype MedicineRecord = MedicineRecord(
    brandName: string,
    genericName: string,
    strength: string,
    dosageForm: string,
    manufacturer: string,
    price: real,
    unitPrice: real,
    packSize: string,
    indication: string,
    sideEffects: string,
    source: string,
    sourceUrl: string)
  {
    /**
     * The join key: the brand and the strength, each lower-cased and reduced to
     * `[a-z0-9]`, separated by `_`.
     */
    function MatchKey(): string {
      KeyPart(brandName) + "_" + (if strength != "" then KeyPart(strength) else "")
    }
  }

  predicate IsKeyChar(c: char) { IsLowerLetter(c) || IsDigit(c) }

  /** `re.sub(r"[^a-z0-9]", "", s)`. */
  function KeepKeyChars(s: string): string {
    if s == [] then []
    else
      var rest := KeepKeyChars(s[1..]);
      if IsKeyChar(s[0]) then [s[0]] + rest else rest
  }

  /** The filter keeps only key characters, and keeps a string of key characters whole. */
  lemma {:induction false} KeepKeyCharsFacts(s: string)
    ensures forall i :: 0 <= i < |KeepKeyChars(s)| ==> IsKeyChar(KeepKeyChars(s)[i])
    ensures (forall i :: 0 <= i < |s| ==> IsKeyChar(s[i])) ==> KeepKeyChars(s) == s
  {
    if s != [] {
      KeepKeyCharsFacts(s[1..]);
      assert forall i :: 1 <= i < |s| ==> s[i] == s[1..][i - 1];
    }
  }

  /** Filtering distributes over concatenation. */
  lemma {:induction false} KeepKeyCharsAppend(a: string, b: string)
    ensures KeepKeyChars(a + b) == KeepKeyChars(a) + KeepKeyChars(b)
  {
    if a == [] {
      assert a + b == b;
    } else {
      var h := if IsKeyChar(a[0]) then [a[0]] else [];
      assert (a + b)[0] == a[0];
      assert (a + b)[1..] == a[1..] + b;
      assert KeepKeyChars(a + b) == h + KeepKeyChars(a[1..] + b);
      assert KeepKeyChars(a) == h + KeepKeyChars(a[1..]);
      KeepKeyCharsAppend(a[1..], b);
      AppendAssoc(h, KeepKeyChars(a[1..]), KeepKeyChars(b));
    }
  }

  /** The filter keeps a character of `[a-z0-9]` and drops every other one, wherever it stands. */
  lemma KeepKeyCharsAt(a: string, c: char, b: string)
    ensures KeepKeyChars(a + [c] + b) == KeepKeyChars(a) + (if IsKeyChar(c) then [c] else []) + KeepKeyChars(b)
  {
    KeepKeyCharsAppend(a + [c], b);
    KeepKeyCharsAppend(a, [c]);
    assert [c][1..] == [];
  }

  /** One half of a match key: `re.sub(r"[^a-z0-9]", "", s.lower())`. */
  function KeyPart(s: string): string {
    KeepKeyChars(Lower(s))
  }

  /** The key holds exactly one `_`, and every other character is in `[a-z0-9]`. */
  lemma MatchKeyFormat(r: MedicineRecord)
    ensures CountChar(r.MatchKey(), '_') == 1
    ensures forall i :: 0 <= i < |r.MatchKey()| && r.MatchKey()[i] != '_' ==> IsKeyChar(r.MatchKey()[i])
  {
    KeepKeyCharsFacts(Lower(r.brandName));
    KeepKeyCharsFacts(Lower(r.strength));
    KeyFormat(KeyPart(r.brandName), if r.strength != "" then KeyPart(r.strength) else "");
  }

  lemma KeyFormat(brand: string, strength: string)
    requires forall i :: 0 <= i < |brand| ==> IsKeyChar(brand[i])
    requires forall i :: 0 <= i < |strength| ==> IsKeyChar(strength[i])
    ensures CountChar(brand + "_" + strength, '_') == 1
    ensures forall i :: 0 <= i < |brand + "_" + strength| && (brand + "_" + strength)[i] != '_' ==>
      IsKeyChar((brand + "_" + strength)[i])
  {
    CountCharZero(brand, '_');
    CountCharZero(strength, '_');
    CountCharAppend(brand, "_", '_');
    CountCharAppend(brand + "_", strength, '_');
  }

  /** Two records share a key exactly when their brands and their strengths reduce to the same key parts. */
  lemma MatchKeyEquality(a: MedicineRecord, b: MedicineRecord)
    ensures a.MatchKey() == b.MatchKey() <==>
      KeyPart(a.brandName) == KeyPart(b.brandName) && KeyPart(a.strength) == KeyPart(b.strength)
  {
    assert KeyPart("") == "";
    KeepKeyCharsFacts(Lower(a.brandName));
    KeepKeyCharsFacts(Lower(b.brandName));
    var ka, kb := a.MatchKey(), b.MatchKey();
    var ba, bb := KeyPart(a.brandName), KeyPart(b.brandName);
    var sa, sb := KeyPart(a.strength), KeyPart(b.strength);
    assert ka == ba + "_" + sa && kb == bb + "_" + sb;
    if ka == kb {
      SplitAtSeparator(ba, sa, bb, sb);
    }
  }

  /** The separator is the only `_`, so the parts around it are determined by the key. */
  lemma SplitAtSeparator(b1: string, s1: string, b2: string, s2: string)
    requires forall i :: 0 <= i < |b1| ==> IsKeyChar(b1[i])
    requires forall i :: 0 <= i < |b2| ==> IsKeyChar(b2[i])
    requires b1 + "_" + s1 == b2 + "_" + s2
    ensures b1 == b2 && s1 == s2
  {
    var k := b1 + "_" + s1;
    var m := if |b1| <= |b2| then |b1| else |b2|;
    assert k[m] == '_';
    assert m == |b1| && m == |b2|;
    assert b1 == k[..m] == b2;
    assert s1 == k[m + 1..] == s2;
  }

  /** Case, spaces and punctuation do not change the key: ("Napa", "500 mg") and ("napa", "500mg") meet. */
  lemma MatchKeyExample()
    ensures MedicineRecord("Napa", "", "500 mg", "", "", 0.0, 0.0, "", "", "", "", "").MatchKey()
         == MedicineRecord("napa", "", "500mg", "", "", 0.0, 0.0, "", "", "", "", "").MatchKey()
  {
    KeyPartExample();
    MatchKeyEquality(
      MedicineRecord("Napa", "", "500 mg", "", "", 0.0, 0.0, "", "", "", "", ""),
      MedicineRecord("napa", "", "500mg", "", "", 0.0, 0.0, "", "", "", "", ""));
  }

  lemma KeyPartExample()
    ensures KeyPart("Napa") == "napa" && KeyPart("napa") == "napa"
    ensures KeyPart("500 mg") == "500mg" && KeyPart("500mg") == "500mg"
  {
    LowerExample();
    assert KeepKeyChars("500 mg") == "500mg";
  }

  lemma LowerExample()
    ensures Lower("Napa") == "napa" && Lower("napa") == "napa"
    ensures Lower("500 mg") == "500 mg" && Lower("500mg") == "500mg"
  {
    assert Lower("Napa")[0] == 'n';
  }

  // ---------------------------------------------------------------------------
  // Normalisers
  // ---------------------------------------------------------------------------

  /** The number+unit pattern of the cross-verification, case-sensitive, as used on lower-cased strengths. */
  const StrengthPattern: Pattern := DecimalUnit(StrengthUnits, false)

  /** The same pattern with `re.IGNORECASE`, as used on brand names. */
  const BrandStrengthPattern: Pattern := DecimalUnit(StrengthUnits, true)

  predicate LowerWithoutSpace(s: string) {
    forall i :: 0 <= i < |s| ==> !IsUpper(s[i]) && s[i] != ' '
  }

  /**
   * `normalize_strength`: lower-case, drop every `' '`, then join every number to the unit
   * that follows it.
   */
  function NormalizeStrength(s: string): string {
    if s == "" then ""
    else
      UnitListsWellFormed();
      Sub(Delete(Lower(s), ' '), StrengthPattern, JoinNumberUnit)
  }

  /**
   * A normalised strength is lower-case and free of `' '`, and no number in it is separated
   * by whitespace from a unit that follows.
   */
  lemma NormalizeStrengthFacts(s: string)
    ensures s == "" ==> NormalizeStrength(s) == ""
    ensures LowerWithoutSpace(NormalizeStrength(s))
    ensures NoSpacedUnit(NormalizeStrength(s), StrengthUnits)
  {
    if s != "" {
      LowerWithoutSpaceAfterDelete(s);
      StrengthJoinFacts(Delete(Lower(s), ' '));
    }
  }

  lemma LowerWithoutSpaceAfterDelete(s: string)
    ensures LowerWithoutSpace(Delete(Lower(s), ' '))
  {
    DeleteKeepsChars(Lower(s), ' ', c => !IsUpper(c));
  }

  /** What joining numbers to units does to a lower-case text without spaces. */
  lemma StrengthJoinFacts(t: string)
    ensures (
      UnitListsWellFormed();
      var r := Sub(t, StrengthPattern, JoinNumberUnit);
      && (LowerWithoutSpace(t) ==> LowerWithoutSpace(r))
      && NoSpacedUnit(r, StrengthUnits))
  {
    UnitListsWellFormed();
    var ms := MatchTable(t, StrengthPattern);
    if LowerWithoutSpace(t) {
      SubKeepsChars(t, ms, 0, JoinNumberUnit, c => !IsUpper(c) && c != ' ');
    }
    DecimalTableMissesNothing(t, StrengthUnits);
    JoinLeavesNoSpacedUnit(t, ms, 0, StrengthUnits);
  }

  lemma LowerIdempotent(s: string)
    ensures Lower(Lower(s)) == Lower(s)
  {
  }

  /** Normalising a normalised strength changes nothing. */
  lemma NormalizeStrengthIdempotent(s: string)
    ensures NormalizeStrength(NormalizeStrength(s)) == NormalizeStrength(s)
  {
    var r := NormalizeStrength(s);
    NormalizeStrengthFacts(s);
    if r != "" {
      assert Lower(r) == r;
      assert Delete(r, ' ') == r;
      UnitListsWellFormed();
      NoSpacedUnitEmptyGaps(r, StrengthUnits);
      JoinWithEmptyGapsIsIdentity(r, MatchTable(r, StrengthPattern), 0);
    }
  }

  /** A strength without whitespace is only lower-cased. */
  lemma NormalizeStrengthWithoutWhitespace(s: string)
    requires forall i :: 0 <= i < |s| ==> !IsSpace(s[i])
    ensures NormalizeStrength(s) == Lower(s)
  {
    if s != "" {
      var l := Lower(s);
      assert Delete(l, ' ') == l;
      UnitListsWellFormed();
      JoinWithoutSpaceIsIdentity(l, MatchTable(l, StrengthPattern));
    }
  }

  predicate IsAlnumOrSpace(c: char) { IsAlnum(c) || IsSpace(c) }

  /** `re.sub(r"[^a-zA-Z0-9\s]", "", s)`. */
  function KeepAlnumAndSpace(s: string): (r: string)
    ensures forall i :: 0 <= i < |r| ==> IsAlnumOrSpace(r[i])
    ensures (forall i :: 0 <= i < |s| ==> IsAlnumOrSpace(s[i])) ==> r == s
  {
    if s == [] then []
    else
      var rest := KeepAlnumAndSpace(s[1..]);
      if IsAlnumOrSpace(s[0]) then [s[0]] + rest else rest
  }

  /** Filtering distributes over concatenation. */
  lemma {:induction false} KeepAlnumAndSpaceAppend(a: string, b: string)
    ensures KeepAlnumAndSpace(a + b) == KeepAlnumAndSpace(a) + KeepAlnumAndSpace(b)
  {
    if a == [] {
      assert a + b == b;
    } else {
      var h := if IsAlnumOrSpace(a[0]) then [a[0]] else [];
      assert (a + b)[0] == a[0];
      assert (a + b)[1..] == a[1..] + b;
      assert KeepAlnumAndSpace(a + b) == h + KeepAlnumAndSpace(a[1..] + b);
      assert KeepAlnumAndSpace(a) == h + KeepAlnumAndSpace(a[1..]);
      KeepAlnumAndSpaceAppend(a[1..], b);
      AppendAssoc(h, KeepAlnumAndSpace(a[1..]), KeepAlnumAndSpace(b));
    }
  }

  /** The filter keeps a letter, digit or whitespace character and drops every other one, wherever it stands. */
  lemma KeepAlnumAndSpaceAt(a: string, c: char, b: string)
    ensures KeepAlnumAndSpace(a + [c] + b) ==
      KeepAlnumAndSpace(a) + (if IsAlnumOrSpace(c) then [c] else []) + KeepAlnumAndSpace(b)
  {
    KeepAlnumAndSpaceAppend(a + [c], b);
    KeepAlnumAndSpaceAppend(a, [c]);
    assert [c][1..] == [];
  }

  /** Single-spaced and trimmed, and every other character a letter or a digit. */
  predicate CleanName(s: string) {
    && SingleSpaced(s) && Trimmed(s)
    && forall i :: 0 <= i < |s| ==> IsAlnum(s[i]) || s[i] == ' '
  }

  /**
   * `normalize_brand`: number+unit tokens removed (case-insensitively), then every
   * character other than a letter, digit or whitespace, then the words re-joined with
   * single spaces and title-cased.
   */
  function NormalizeBrand(name: string): string {
    if name == "" then ""
    else
      UnitListsWellFormed();
      Title(NormalizeText(KeepAlnumAndSpace(Sub(name, BrandStrengthPattern, Remove))))
  }

  /** Every word starts with an upper-case letter, and a letter that follows a letter is lower case. */
  predicate TitleCased(r: string) {
    && (forall i :: 0 <= i < |r| && IsLetter(r[i]) && (i == 0 || r[i - 1] == ' ') ==> IsUpper(r[i]))
    && (forall i :: 0 < i < |r| && IsLetter(r[i]) && IsLetter(r[i - 1]) ==> IsLowerLetter(r[i]))
  }

  /**
   * A normalised brand holds only letters, digits and single inner spaces; each word starts
   * with an upper-case letter and continues in lower case.
   */
  lemma NormalizeBrandFacts(name: string)
    ensures name == "" ==> NormalizeBrand(name) == ""
    ensures var r := NormalizeBrand(name);
      CleanName(r) && TitleCased(r)
  {
    if name != "" {
      UnitListsWellFormed();
      BrandFacts(KeepAlnumAndSpace(Sub(name, BrandStrengthPattern, Remove)));
    }
  }

  /** A title-cased, re-joined text of letters, digits and whitespace is a clean name. */
  lemma BrandFacts(kept: string)
    requires forall i :: 0 <= i < |kept| ==> IsAlnumOrSpace(kept[i])
    ensures var r := Title(NormalizeText(kept));
      CleanName(r) && TitleCased(r)
  {
    var joined := NormalizeText(kept);
    JoinedIsClean(kept, joined);
    TitleKeepsClean(joined);
    TitleCasing(joined);
  }

  /**
   * A strength written after a brand name, behind a space, goes with the removal:
   * "Napa 500mg", "Napa 500MG" and "Napa" share a normalised name.
   */
  lemma NormalizeBrandDropsStrength(b: string, d: string, u: string)
    requires d != [] && AllDigits(d) && Lower(u) in StrengthUnits
    ensures NormalizeBrand(b + " " + d + u) == NormalizeBrand(b)
  {
    UnitListsWellFormed();
    var cut := Sub(b, BrandStrengthPattern, Remove);
    assert Sub(b + " " + d + u, BrandStrengthPattern, Remove) == cut + " " by {
      assert b + " " + d + u == b + (" " + d + u);
      StrengthTailRemoved(b, d, u);
    }
    var kept := KeepAlnumAndSpace(cut);
    assert KeepAlnumAndSpace(cut + " ") == kept + " " by {
      KeepAlnumAndSpaceAppend(cut, " ");
    }
    assert NormalizeText(kept + " ") == NormalizeText(kept) by {
      NormalizeTextTrailingSpace(kept, ' ');
    }
    if b == "" {
      assert cut == [];
    }
  }

  /** The removal leaves the brand part as it would alone, and of the strength only the space before it. */
  lemma StrengthTailRemoved(b: string, d: string, u: string)
    requires d != [] && AllDigits(d) && Lower(u) in StrengthUnits && WellFormedUnits(StrengthUnits)
    ensures Sub(b + (" " + d + u), BrandStrengthPattern, Remove) == Sub(b, BrandStrengthPattern, Remove) + " "
  {
    var t := " " + d + u;
    var s := b + t;
    var ms, mb := MatchTable(s, BrandStrengthPattern), MatchTable(b, BrandStrengthPattern);
    assert t[0] == ' ' && t[1] == d[0];
    forall k | 0 <= k < |b| ensures ms[k] == mb[k] {
      MatchAtExtend(b, t, k, StrengthUnits, true);
    }
    SubFromExtend(b, t, ms, mb, 0, Remove);
    StrengthTail(b, d, u);
  }

  /** Behind the brand part the scan copies the space and removes the number with its unit. */
  lemma StrengthTail(b: string, d: string, u: string)
    requires d != [] && AllDigits(d) && Lower(u) in StrengthUnits && WellFormedUnits(StrengthUnits)
    ensures SubFrom(b + (" " + d + u), MatchTable(b + (" " + d + u), BrandStrengthPattern), |b|, Remove) == " "
  {
    var s := b + (" " + d + u);
    var ms := MatchTable(s, BrandStrengthPattern);
    assert s[|b|] == ' ';
    SubUnmatched(s, ms, |b|, Remove);
    StrengthMatch(b, d, u);
    SubMatched(s, ms, |b| + 1, Remove);
  }

  /** The number and the unit behind the space are one match that runs to the end. */
  lemma StrengthMatch(b: string, d: string, u: string)
    requires d != [] && AllDigits(d) && Lower(u) in StrengthUnits && WellFormedUnits(StrengthUnits)
    ensures var s := b + (" " + d + u); var e := |b| + 1 + |d|;
      MatchAt(s, |b| + 1, BrandStrengthPattern) == Some(Span(e, e, |s|))
  {
    var s := b + (" " + d + u);
    var i, e := |b| + 1, |b| + 1 + |d|;
    forall j | i <= j < e ensures IsDigit(s[j]) {
      assert s[j] == d[j - i];
    }
    assert s[e..] == u;
    StrengthUnitsPrefixFree();
    NumberAndUnitMatch(s, i, e, StrengthUnits);
  }

  /** A clean name in which no strength token starts is only title-cased. */
  lemma NormalizeBrandKeepsCleanName(b: string)
    requires CleanName(b) && NoMatchBetween(b, 0, |b|, BrandStrengthPattern)
    ensures NormalizeBrand(b) == Title(b)
  {
    if b != "" {
      UnitListsWellFormed();
      SubWithoutMatches(b, MatchTable(b, BrandStrengthPattern), 0, Remove);
      assert b[0..] == b && b[0..|b|] == b;
      assert KeepAlnumAndSpace(b) == b;
      StripUnique(b, 0, |b|);
      CollapseSpacesFixed(b);
    }
  }

  /**
   * The removal is one pass, made before punctuation is dropped, so a strength written with
   * a hyphen inside it survives: "5-mg" becomes "5Mg", in which the pattern matches again.
   */
  lemma NormalizeBrandKeepsHyphenatedStrength(d: string, u: string)
    requires d != [] && AllDigits(d) && u in StrengthUnits && forall j :: 0 <= j < |u| ==> IsLowerLetter(u[j])
    ensures NormalizeBrand(d + "-" + u) == Title(d + u)
    ensures MatchAt(Title(d + u), 0, BrandStrengthPattern).Some?
  {
    UnitListsWellFormed();
    var s, k := d + "-" + u, d + u;
    assert Sub(s, BrandStrengthPattern, Remove) == s by {
      HyphenStopsMatch(d, u);
      SubWithoutMatches(s, MatchTable(s, BrandStrengthPattern), 0, Remove);
      assert s[0..] == s;
    }
    assert KeepAlnumAndSpace(s) == k by {
      HyphenDropped(d, u);
    }
    assert NormalizeText(k) == k by {
      forall j | 0 <= j < |k| ensures !IsSpace(k[j]) {
        if j < |d| { assert k[j] == d[j]; } else { assert k[j] == u[j - |d|]; }
      }
      StripUnique(k, 0, |k|);
      assert k[0..|k|] == k;
      CollapseSpacesFixed(k);
    }
    TitledStrengthMatches(d, u);
  }

  /** Dropping punctuation removes the hyphen and nothing else. */
  lemma HyphenDropped(d: string, u: string)
    requires AllDigits(d) && forall j :: 0 <= j < |u| ==> IsLowerLetter(u[j])
    ensures KeepAlnumAndSpace(d + "-" + u) == d + u
  {
    assert forall j :: 0 <= j < |d| ==> IsAlnumOrSpace(d[j]);
    assert forall j :: 0 <= j < |u| ==> IsAlnumOrSpace(u[j]);
    assert KeepAlnumAndSpace(d) == d;
    assert KeepAlnumAndSpace(u) == u;
    assert !IsAlnumOrSpace('-');
    assert "-" == ['-'];
    KeepAlnumAndSpaceAt(d, '-', u);
    var e: string := [];
    assert KeepAlnumAndSpace(d + "-" + u) == d + e + u;
    assert d + e == d;
  }

  /** No match starts in `d + "-" + u`: the hyphen stands where the unit would have to begin. */
  lemma HyphenStopsMatch(d: string, u: string)
    requires d != [] && AllDigits(d) && forall j :: 0 <= j < |u| ==> IsLowerLetter(u[j])
    requires WellFormedUnits(StrengthUnits)
    ensures forall k :: 0 <= k < |d + "-" + u| ==> MatchAt(d + "-" + u, k, BrandStrengthPattern).None?
  {
    var s := d + "-" + u;
    forall k | 0 <= k < |s| ensures MatchAt(s, k, BrandStrengthPattern).None? {
      if k < |d| {
        forall j | k <= j < |d| ensures IsDigit(s[j]) {
          assert s[j] == d[j];
        }
        assert s[|d|] == '-';
        assert DigitRun(s, k) == |d| - k by {
          DigitRunIs(s, k, |d| - k);
        }
        assert GapEnd(s, NumberEnd(s, k, BrandStrengthPattern), BrandStrengthPattern) == |d|;
        assert UnitAt(s, |d|, StrengthUnits, true) == 0 by {
          UnitAtNotStart(s, |d|, StrengthUnits, true);
        }
      } else if k > |d| {
        assert s[k] == u[k - |d| - 1];
      }
    }
  }

  /** Title-cased, the number and the unit still form a match. */
  lemma TitledStrengthMatches(d: string, u: string)
    requires d != [] && AllDigits(d) && u in StrengthUnits && forall j :: 0 <= j < |u| ==> IsLowerLetter(u[j])
    requires WellFormedUnits(StrengthUnits)
    ensures MatchAt(Title(d + u), 0, BrandStrengthPattern).Some?
  {
    var k := d + u;
    var x := Title(k);
    forall j | 0 <= j < |d| ensures IsDigit(x[j]) {
      assert k[j] == d[j];
    }
    assert Lower(x[|d|..]) == u by {
      forall j | 0 <= j < |u| ensures LowerChar(x[|d| + j]) == u[j] {
        assert k[|d| + j] == u[j];
        assert x[|d| + j] == TitleChar(k, |d| + j);
      }
    }
    StrengthUnitsPrefixFree();
    NumberAndUnitMatch(x, 0, |d|, StrengthUnits);
  }

  /** After title-casing, a letter that starts a word is upper case and a letter that follows a letter lower case. */
  lemma TitleCasing(s: string)
    ensures TitleCased(Title(s))
  {
  }

  lemma JoinedIsClean(kept: string, joined: string)
    requires forall i :: 0 <= i < |kept| ==> IsAlnumOrSpace(kept[i])
    requires joined == NormalizeText(kept)
    ensures CleanName(joined)
  {
    NonSpaceChars(kept);
    NonSpaceChars(joined);
  }

  predicate AllAlnum(s: string) { forall i :: 0 <= i < |s| ==> IsAlnum(s[i]) }

  predicate AlnumWhereNotSpace(s: string) { forall i :: 0 <= i < |s| && !IsSpace(s[i]) ==> IsAlnum(s[i]) }

  /** The non-whitespace characters of `s` are all letters or digits exactly when those of `NonSpace(s)` are. */
  lemma {:induction false} NonSpaceChars(s: string)
    ensures AlnumWhereNotSpace(s) <==> AllAlnum(NonSpace(s))
  {
    if s != [] {
      var t := s[1..];
      NonSpaceChars(t);
      var head := if IsSpace(s[0]) then [] else [s[0]];
      assert NonSpace(s) == head + NonSpace(t);
      assert AlnumWhereNotSpace(s) <==> (!IsSpace(s[0]) ==> IsAlnum(s[0])) && AlnumWhereNotSpace(t) by {
        assert forall i :: 1 <= i < |s| ==> s[i] == t[i - 1];
      }
      AllAlnumConcat(head, NonSpace(t));
    }
  }

  lemma AllAlnumConcat(a: string, b: string)
    ensures AllAlnum(a + b) <==> AllAlnum(a) && AllAlnum(b)
  {
    assert forall i :: 0 <= i < |a| ==> a[i] == (a + b)[i];
    assert forall i :: 0 <= i < |b| ==> b[i] == (a + b)[|a| + i];
  }

  lemma TitleKeepsClean(s: string)
    requires CleanName(s)
    ensures CleanName(Title(s))
  {
    var r := Title(s);
    forall i | 0 <= i < |r| ensures IsAlnum(r[i]) || r[i] == ' ' {
      if !IsLetter(s[i]) { assert r[i] == s[i]; }
    }
    forall i | 0 <= i < |r| && IsSpace(r[i]) ensures r[i] == ' ' {
      if !IsLetter(s[i]) { assert r[i] == s[i]; }
    }
  }
}
