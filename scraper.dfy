/**
 * The DGDA/Kaggle scraper's field cleaning: its own `normalize_strength`, which differs from
 * the cross-verification's, and the mapping of a Kaggle CSV row to a scraped record. Its
 * `normalize_text` is `Text.NormalizeText`.
 */
module Scraper {
  import opened Wrappers
  import opened Text
  import opened Patterns
  import opened CsvRows
  import CrossVerify

  /** `(\d+)\s?(mg|mcg|ml|gm|iu)`: an integer, at most one whitespace character, a unit. */
  const ScraperPattern: Pattern := IntegerUnit(ScraperUnits)

  /**
   * `normalize_strength` of the scraper: lower-case, drop every `' '`, then join an integer to
   * the unit that follows it across one whitespace character.
   */
  function NormalizeStrength(s: string): (r: string)
    ensures s == "" ==> r == ""
    ensures CrossVerify.LowerWithoutSpace(r)
  {
    if s == "" then ""
    else
      UnitListsWellFormed();
      var t := Delete(Lower(s), ' ');
      CrossVerify.LowerWithoutSpaceAfterDelete(s);
      SubKeepsChars(t, MatchTable(t, ScraperPattern), 0, JoinNumberUnit, c => !IsUpper(c) && c != ' ');
      Sub(t, ScraperPattern, JoinNumberUnit)
  }

  /**
   * A whole number, one whitespace character other than `' '` (which is deleted beforehand),
   * and a unit: the two are joined, the whitespace dropped.
   */
  lemma NormalizeStrengthJoins(d: string, w: char, u: string)
    requires d != [] && AllDigits(d) && IsSpace(w) && w != ' ' && u in ScraperUnits
    ensures NormalizeStrength(d + [w] + u) == d + u
  {
    UnitListsWellFormed();
    PlainStrength(d, w, u);
    SpacedStrengthJoined(d, w, u);
  }

  lemma SpacedStrengthJoined(d: string, w: char, u: string)
    requires d != [] && AllDigits(d) && IsSpace(w) && u in ScraperUnits
    ensures (UnitListsWellFormed(); Sub(d + [w] + u, ScraperPattern, JoinNumberUnit) == d + u)
  {
    var s := d + [w] + u;
    var m := Span(|d|, |d| + 1, |s|);
    UnitListsWellFormed();
    SpacedStrengthMatches(d, w, u);
    SubOfWholeMatch(s, ScraperPattern, m, JoinNumberUnit);
    assert s[0..|d|] == d && s[|d| + 1..|s|] == u;
  }

  lemma SpacedStrengthMatches(d: string, w: char, u: string)
    requires d != [] && AllDigits(d) && IsSpace(w) && u in ScraperUnits
    ensures MatchAt(d + [w] + u, 0, ScraperPattern) == Some(Span(|d|, |d| + 1, |d| + 1 + |u|))
  {
    var s := d + [w] + u;
    UnitListsWellFormed();
    ScraperUnitsPrefixFree();
    forall j | 0 <= j < |d| ensures IsDigit(s[j]) {
      assert s[j] == d[j];
    }
    assert s[|d| + 1..] == u;
    NumberSpaceUnitMatch(s, |d|, ScraperUnits);
  }

  /** Digits, whitespace other than `' '` and a lower-case unit are left alone by lower-casing and by deleting `' '`. */
  lemma PlainStrength(d: string, w: char, u: string)
    requires AllDigits(d) && IsSpace(w) && w != ' ' && u in ScraperUnits
    ensures Delete(Lower(d + [w] + u), ' ') == d + [w] + u
  {
    var s := d + [w] + u;
    UnitListsWellFormed();
    forall k | 0 <= k < |s| ensures !IsUpper(s[k]) && s[k] != ' ' {
      if k < |d| {
        assert s[k] == d[k];
      } else if k > |d| {
        assert s[k] == u[k - |d| - 1];
      }
    }
    assert Lower(s) == s;
  }

  /** The scraper never leaves a number one whitespace character away from its unit. */
  lemma NormalizeStrengthLeavesNoOneSpaceUnit(s: string)
    ensures NoOneSpaceUnit(NormalizeStrength(s), ScraperUnits)
  {
    if s != "" {
      UnitListsWellFormed();
      var t := Delete(Lower(s), ' ');
      IntegerTableMissesNothing(t, ScraperUnits);
      JoinLeavesNoOneSpaceUnit(t, MatchTable(t, ScraperPattern), 0, ScraperUnits);
    }
  }

  /**
   * With `' '` as the only whitespace the unit-joining substitution has nothing left to do:
   * the result is the input lower-cased and without its spaces.
   */
  lemma JoinIsIdleOnBlanks(s: string)
    requires OnlyBlanks(s)
    ensures NormalizeStrength(s) == Delete(Lower(s), ' ')
  {
    if s != "" {
      var t := Delete(Lower(s), ' ');
      OnlyBlanksDeleted(s);
      UnitListsWellFormed();
      JoinWithoutSpaceIsIdentity(t, MatchTable(t, ScraperPattern));
    }
  }

  /**
   * The two `normalize_strength` functions agree whenever `' '` is the only whitespace: the
   * scraper's missing `%` unit and decimal part only show once tabs or line breaks sit between
   * a number and its unit.
   */
  lemma AgreesWithCrossVerify(s: string)
    requires OnlyBlanks(s)
    ensures NormalizeStrength(s) == CrossVerify.NormalizeStrength(s)
  {
    if s != "" {
      var t := Delete(Lower(s), ' ');
      JoinIsIdleOnBlanks(s);
      OnlyBlanksDeleted(s);
      UnitListsWellFormed();
      JoinWithoutSpaceIsIdentity(t, MatchTable(t, CrossVerify.StrengthPattern));
    }
  }

  /**
   * Where the two `normalize_strength` functions part: across a tab the cross-verification
   * joins a number to `%`, a unit the scraper does not know.
   */
  lemma DisagreesOnTabbedPercent()
    ensures NormalizeStrength("5\t%") == "5\t%"
    ensures CrossVerify.NormalizeStrength("5\t%") == "5%"
  {
    var t := "5\t%";
    assert Delete(Lower(t), ' ') == t by { TabbedPercentText(); }
    UnitListsWellFormed();
    assert Sub(t, ScraperPattern, JoinNumberUnit) == t by { ScraperKeepsTabbedPercent(); }
    assert Sub(t, CrossVerify.StrengthPattern, JoinNumberUnit) == "5%" by { CrossJoinsTabbedPercent(); }
  }

  lemma TabbedPercentText()
    ensures Delete(Lower("5\t%"), ' ') == "5\t%"
  {
    assert Lower("5\t%") == "5\t%";
  }

  /** No position of "5\t%" starts a match of the scraper's pattern: `%` is not one of its units. */
  lemma ScraperKeepsTabbedPercent()
    ensures WellFormedUnits(ScraperUnits) && Sub("5\t%", ScraperPattern, JoinNumberUnit) == "5\t%"
  {
    var t := "5\t%";
    UnitListsWellFormed();
    var ms := MatchTable(t, ScraperPattern);
    assert ms[1] == None && ms[2] == None;
    assert ms[0] == None by {
      assert DigitRun(t, 0) == 1;
      assert GapEnd(t, 1, ScraperPattern) == 2;
      assert UnitAt(t, 2, ScraperUnits, false) == 0;
    }
    assert SubFrom(t, ms, 0, JoinNumberUnit) == t by {
      assert SubFrom(t, ms, 2, JoinNumberUnit) == [t[2]];
      assert SubFrom(t, ms, 1, JoinNumberUnit) == [t[1], t[2]];
    }
  }

  /** The cross-verification's pattern matches all of "5\t%" and drops the tab. */
  lemma CrossJoinsTabbedPercent()
    ensures WellFormedUnits(StrengthUnits) && Sub("5\t%", CrossVerify.StrengthPattern, JoinNumberUnit) == "5%"
  {
    var t := "5\t%";
    UnitListsWellFormed();
    var cs := MatchTable(t, CrossVerify.StrengthPattern);
    assert cs[0] == Some(Span(1, 2, 3)) by {
      assert DigitRun(t, 0) == 1;
      assert NumberEnd(t, 0, CrossVerify.StrengthPattern) == 1;
      assert SkipSpaces(t, 1) == 2;
      assert UnitAt(t, 2, StrengthUnits, false) == 1;
    }
    assert SubFrom(t, cs, 3, JoinNumberUnit) == [];
    assert SubFrom(t, cs, 0, JoinNumberUnit) == t[0..1] + t[2..3];
  }

  /** A record of the scraper's output. */
  datatype ScrapedMedicine = ScrapedMedicine(
    brandName: string,
    genericName: string,
    strength: string,
    dosageForm: string,
    manufacturer: string,
    price: string)

  /** The record `load_kaggle_data` builds from one CSV row. */
  function KaggleMedicine(row: Row): ScrapedMedicine {
    ScrapedMedicine(
      NormalizeText(Get(row, "Brand Name")),
      NormalizeText(Get(row, "Generic")),
      NormalizeStrength(Get(row, "Strength")),
      NormalizeText(Get(row, "Dosage Form")),
      NormalizeText(Get(row, "Manufacturer")),
      Get(row, "Unit Price"))
  }

  /**
   * The names come out trimmed and single-spaced, and normalising them again changes nothing;
   * the strength is lower-case without `' '`, and so is whatever the cross-verification makes of
   * it; the price is the cell's text, not a number.
   */
  lemma KaggleMedicineFacts(row: Row)
    ensures var m := KaggleMedicine(row);
      && SingleSpaced(m.brandName) && Trimmed(m.brandName) && NormalizeText(m.brandName) == m.brandName
      && SingleSpaced(m.genericName) && Trimmed(m.genericName) && NormalizeText(m.genericName) == m.genericName
      && SingleSpaced(m.dosageForm) && Trimmed(m.dosageForm)
      && SingleSpaced(m.manufacturer) && Trimmed(m.manufacturer)
      && CrossVerify.LowerWithoutSpace(m.strength)
      && (OnlyBlanks(Get(row, "Strength")) ==>
            m.strength == CrossVerify.NormalizeStrength(Get(row, "Strength"))
            && CrossVerify.NormalizeStrength(m.strength) == m.strength)
      && ("Unit Price" in row ==> m.price == row["Unit Price"])
  {
    NormalizeTextIdempotent(Get(row, "Brand Name"));
    NormalizeTextIdempotent(Get(row, "Generic"));
    var s := Get(row, "Strength");
    if OnlyBlanks(s) {
      AgreesWithCrossVerify(s);
      CrossVerify.NormalizeStrengthIdempotent(s);
    }
  }
}
