/**
 * The "number followed by a unit" regular expressions of the pipeline, matched the way
 * Python's `re` module matches them:
 *
 *   `\d+(?:\.\d+)?\s*(?:mg|mcg|ml|gm|iu|%)`   (cross-verification, Medex scraper)
 *   `(\d+)\s?(mg|mcg|ml|gm|iu)`               (DGDA/Kaggle scraper)
 *
 * For both patterns the greedy reading is the only one that can succeed: giving back a
 * digit, a decimal part or a whitespace character leaves a digit, a dot or a whitespace
 * character where the pattern next needs a unit, and no unit starts with one of those.
 * `TokenAt` therefore decides a match at one position without backtracking, and
 * `SubFrom`/`SearchFrom` try the positions left to right as `re.sub`/`re.search` do.
 */
module Patterns {
  import opened Wrappers
  import opened Text

  /** The unit alternatives `mg|mcg|ml|gm|iu|%`, in the order the regex tries them. */
  const StrengthUnits: seq<string> := ["mg", "mcg", "ml", "gm", "iu", "%"]

  /** The DGDA scraper's unit alternatives `mg|mcg|ml|gm|iu`: no `%`. */
  const ScraperUnits: seq<string> := ["mg", "mcg", "ml", "gm", "iu"]

  /** Units are non-empty lower-case literals without digits or whitespace. */
  predicate WellFormedUnits(units: seq<string>) {
    forall k :: 0 <= k < |units| ==>
      units[k] != [] && forall j :: 0 <= j < |units[k]| ==>
        !IsDigit(units[k][j]) && !IsSpace(units[k][j]) && !IsUpper(units[k][j]) && units[k][j] != '.'
  }

  /** No unit is the beginning of another. */
  ghost predicate PrefixFree(units: seq<string>) {
    forall j, k :: UnitPrefix(units, j, k) ==> j == k
  }

  /** Unit `j` is the beginning of unit `k`. */
  predicate UnitPrefix(units: seq<string>, j: int, k: int) {
    0 <= j < |units| && 0 <= k < |units| && units[j] <= units[k]
  }

  lemma StrengthUnitsPrefixFree()
    ensures PrefixFree(StrengthUnits)
  {
    forall j, k | UnitPrefix(StrengthUnits, j, k)
      ensures j == k
    {
      var v, w := StrengthUnits[j], StrengthUnits[k];
      assert v[0] == w[0] && (|v| > 1 ==> v[1] == w[1]);
    }
  }

  lemma UnitListsWellFormed()
    ensures WellFormedUnits(StrengthUnits) && WellFormedUnits(ScraperUnits)
  {
  }

  /** The length of the run of digits that starts at `i`. */
  function DigitRun(s: string, i: nat): (n: nat)
    requires i <= |s|
    ensures i + n <= |s|
    ensures forall j :: i <= j < i + n ==> IsDigit(s[j])
    ensures i + n == |s| || !IsDigit(s[i + n])
    decreases |s| - i
  {
    if i < |s| && IsDigit(s[i]) then 1 + DigitRun(s, i + 1) else 0
  }

  /** Unit `u` occurs at `i`, compared case-insensitively when `fold` (`re.IGNORECASE`). */
  predicate UnitMatches(s: string, i: nat, u: string, fold: bool) {
    i + |u| <= |s| && (if fold then Lower(s[i..i + |u|]) else s[i..i + |u|]) == u
  }

  /** The length of the first unit alternative that matches at `i`, or 0 when none does. */
  function UnitAt(s: string, i: nat, units: seq<string>, fold: bool): (n: nat)
    ensures n > 0 ==> i + n <= |s|
  {
    if units == [] then 0
    else if UnitMatches(s, i, units[0], fold) then |units[0]|
    else UnitAt(s, i, units[1..], fold)
  }

  /** `UnitAt` finds a unit exactly when one of the alternatives matches. */
  lemma {:induction false} UnitAtMeaning(s: string, i: nat, units: seq<string>, fold: bool)
    requires WellFormedUnits(units)
    ensures UnitAt(s, i, units, fold) > 0 <==> exists k :: 0 <= k < |units| && UnitMatches(s, i, units[k], fold)
    ensures UnitAt(s, i, units, fold) > 0 ==>
      exists k :: 0 <= k < |units| && UnitMatches(s, i, units[k], fold) && UnitAt(s, i, units, fold) == |units[k]|
  {
    if units != [] {
      assert forall k :: 1 <= k < |units| ==> units[k] == units[1..][k - 1];
      UnitAtMeaning(s, i, units[1..], fold);
      if UnitAt(s, i, units[1..], fold) > 0 && !UnitMatches(s, i, units[0], fold) {
        var k :| 0 <= k < |units[1..]| && UnitMatches(s, i, units[1..][k], fold) && UnitAt(s, i, units[1..], fold) == |units[1..][k]|;
        assert units[1..][k] == units[k + 1];
      }
    }
  }

  /**
   * Where a match that starts at some position `i` ends: the number is `s[i..numEnd]`,
   * the whitespace before the unit `s[numEnd..gapEnd]` and the unit `s[gapEnd..end]`.
   */
  datatype Span = Span(numEnd: nat, gapEnd: nat, end: nat)

  datatype Pattern =
    | DecimalUnit(units: seq<string>, fold: bool)   // \d+(?:\.\d+)?\s*(?:units)
    | IntegerUnit(units: seq<string>)               // (\d+)\s?(units)
  {
    function Units(): seq<string> {
      match this
      case DecimalUnit(units, _) => units
      case IntegerUnit(units) => units
    }

    function Fold(): bool {
      match this
      case DecimalUnit(_, fold) => fold
      case IntegerUnit(_) => false
    }
  }

  /** The end of the number that starts at `i`: the digit run, then `.digits` for a decimal pattern. */
  function NumberEnd(s: string, i: nat, p: Pattern): (e: nat)
    requires i <= |s|
    ensures i + DigitRun(s, i) <= e <= |s|
    ensures forall k :: i <= k < e ==> IsDigit(s[k]) || s[k] == '.'
    ensures DigitRun(s, i) > 0 ==> IsDigit(s[e - 1])
  {
    var e := i + DigitRun(s, i);
    if p.DecimalUnit? && e + 1 < |s| && s[e] == '.' && IsDigit(s[e + 1]) then e + 1 + DigitRun(s, e + 1)
    else e
  }

  /** The end of the whitespace between number and unit: any run, or at most one character. */
  function GapEnd(s: string, e: nat, p: Pattern): (g: nat)
    requires e <= |s|
    ensures e <= g <= |s|
    ensures forall k :: e <= k < g ==> IsSpace(s[k])
  {
    if p.DecimalUnit? then SkipSpaces(s, e)
    else if e < |s| && IsSpace(s[e]) then e + 1
    else e
  }

  /** The match of pattern `p` that starts exactly at position `i`, if there is one. */
  function MatchAt(s: string, i: nat, p: Pattern): (r: Option<Span>)
    requires i <= |s|
    ensures r.Some? ==> i < r.value.numEnd <= r.value.gapEnd < r.value.end <= |s|
    ensures i == |s| || !IsDigit(s[i]) ==> r.None?
  {
    if DigitRun(s, i) == 0 then None
    else
      var e := NumberEnd(s, i, p);
      var g := GapEnd(s, e, p);
      var n := UnitAt(s, g, p.Units(), p.Fold());
      if n == 0 then None else Some(Span(e, g, g + n))
  }

  /** What a match consists of: a number, whitespace, and one of the units. */
  lemma MatchAtMeaning(s: string, i: nat, p: Pattern)
    requires i <= |s| && WellFormedUnits(p.Units())
    ensures MatchAt(s, i, p).Some? ==> (
      var m := MatchAt(s, i, p).value;
      && IsDigit(s[i]) && IsDigit(s[m.numEnd - 1])
      && (forall k :: i <= k < m.numEnd ==> IsDigit(s[k]) || s[k] == '.')
      && (forall k :: m.numEnd <= k < m.gapEnd ==> IsSpace(s[k]))
      && (forall k :: m.gapEnd <= k < m.end ==> !IsDigit(s[k]) && !IsSpace(s[k]) && s[k] != '.')
      && exists k :: 0 <= k < |p.Units()| && UnitMatches(s, m.gapEnd, p.Units()[k], p.Fold())
                     && m.end == m.gapEnd + |p.Units()[k]|)
    ensures MatchAt(s, i, p).None? && i < |s| && IsDigit(s[i]) ==>
      var g := GapEnd(s, NumberEnd(s, i, p), p);
      forall k :: 0 <= k < |p.Units()| ==> !UnitMatches(s, g, p.Units()[k], p.Fold())
  {
    if i < |s| && IsDigit(s[i]) {
      var e := NumberEnd(s, i, p);
      var g := GapEnd(s, e, p);
      UnitAtMeaning(s, g, p.Units(), p.Fold());
      if MatchAt(s, i, p).Some? {
        var k :| 0 <= k < |p.Units()| && UnitMatches(s, g, p.Units()[k], p.Fold()) && UnitAt(s, g, p.Units(), p.Fold()) == |p.Units()[k]|;
        UnitCharsPlain(s, g, p.Units()[k], p.Fold(), p.Units());
      }
    }
  }

  /** The characters of a unit matched in `s` are neither digits, nor dots, nor whitespace. */
  lemma UnitCharsPlain(s: string, g: nat, u: string, fold: bool, units: seq<string>)
    requires WellFormedUnits(units) && u in units && UnitMatches(s, g, u, fold)
    ensures u != []
    ensures forall k :: g <= k < g + |u| ==> !IsDigit(s[k]) && !IsSpace(s[k]) && s[k] != '.'
  {
    forall k | g <= k < g + |u| ensures !IsDigit(s[k]) && !IsSpace(s[k]) && s[k] != '.' {
      var c := u[k - g];
      if fold {
        assert c == Lower(s[g..g + |u|])[k - g] == LowerChar(s[k]);
      } else {
        assert c == s[g..g + |u|][k - g] == s[k];
      }
    }
  }

  /** Where a match that starts at `i` sits in `s`: a number, whitespace, then a unit. */
  predicate SpanFits(s: string, i: nat, m: Span) {
    && i < m.numEnd <= m.gapEnd < m.end <= |s|
    && IsDigit(s[i]) && IsDigit(s[m.numEnd - 1])
    && (forall k :: i <= k < m.numEnd ==> IsDigit(s[k]) || s[k] == '.')
    && (forall k :: m.numEnd <= k < m.gapEnd ==> IsSpace(s[k]))
    && (forall k :: m.gapEnd <= k < m.end ==> !IsDigit(s[k]) && !IsSpace(s[k]) && s[k] != '.')
  }

  /** `ms[i]` is a match that starts at `i`, or nothing, for every position `i` of `s`. */
  predicate Consistent(s: string, ms: seq<Option<Span>>) {
    |ms| == |s| && forall i :: 0 <= i < |s| && ms[i].Some? ==> SpanFits(s, i, ms[i].value)
  }

  /** The match of `p` at every position of `s`. */
  function MatchTable(s: string, p: Pattern): (ms: seq<Option<Span>>)
    requires WellFormedUnits(p.Units())
    ensures Consistent(s, ms)
    ensures forall i :: 0 <= i < |s| ==> ms[i] == MatchAt(s, i, p)
  {
    var ms := seq(|s|, i requires 0 <= i < |s| => MatchAt(s, i, p));
    assert forall i :: 0 <= i < |s| && ms[i].Some? ==> SpanFits(s, i, ms[i].value) by {
      forall i | 0 <= i < |s| && ms[i].Some? ensures SpanFits(s, i, ms[i].value) {
        MatchAtMeaning(s, i, p);
      }
    }
    ms
  }

  /** What a match is replaced by. */
  datatype Replacement =
    | Remove          // re.sub(pattern, "", s)
    | JoinNumberUnit  // re.sub(pattern with groups, r"\1\3", s): the whitespace is dropped

  /** The replacement text for the match `m` that starts at `i`. */
  function Replace(s: string, i: nat, m: Span, rep: Replacement): string
    requires i <= m.numEnd <= m.gapEnd <= m.end <= |s|
  {
    match rep
    case Remove => []
    case JoinNumberUnit => s[i..m.numEnd] + s[m.gapEnd..m.end]
  }

  /** The scan of `re.sub` from position `i`, given the match table `ms` of `s`. */
  function SubFrom(s: string, ms: seq<Option<Span>>, i: nat, rep: Replacement): string
    requires Consistent(s, ms) && i <= |s|
    decreases |s| - i
  {
    if i == |s| then []
    else
      match ms[i]
      case Some(m) => Replace(s, i, m, rep) + SubFrom(s, ms, m.end, rep)
      case None => [s[i]] + SubFrom(s, ms, i + 1, rep)
  }

  /** `re.sub(p, rep, s)`: every match, scanning left to right, replaced. */
  function Sub(s: string, p: Pattern, rep: Replacement): string
    requires WellFormedUnits(p.Units())
  {
    SubFrom(s, MatchTable(s, p), 0, rep)
  }

  /** No match of `p` starts at a position in `[i, j)`. */
  predicate NoMatchBetween(s: string, i: nat, j: nat, p: Pattern)
    requires j <= |s| + 1
  {
    forall k :: i <= k < j ==> MatchAt(s, k, p).None?
  }

  /** `re.search(p, s[i:])`: the leftmost match at or after `i`, with its start. */
  function SearchFrom(s: string, i: nat, p: Pattern): (r: Option<(nat, Span)>)
    requires i <= |s|
    ensures r.Some? ==> i <= r.value.0 <= |s| && MatchAt(s, r.value.0, p) == Some(r.value.1)
    ensures r.Some? ==> NoMatchBetween(s, i, r.value.0, p)
    ensures r.None? ==> NoMatchBetween(s, i, |s| + 1, p)
    decreases |s| - i
  {
    var here := MatchAt(s, i, p);
    if here.Some? then Some((i, here.value))
    else if i == |s| then None
    else SearchFrom(s, i + 1, p)
  }

  /** One step of the scan on a match: replaced, then the scan goes on after it. */
  lemma SubMatched(s: string, ms: seq<Option<Span>>, i: nat, rep: Replacement)
    requires Consistent(s, ms) && i < |s| && ms[i].Some?
    ensures SpanFits(s, i, ms[i].value)
    ensures SubFrom(s, ms, i, rep) == Replace(s, i, ms[i].value, rep) + SubFrom(s, ms, ms[i].value.end, rep)
  {
  }

  /** One step of the scan where nothing matches: the character is copied. */
  lemma SubUnmatched(s: string, ms: seq<Option<Span>>, i: nat, rep: Replacement)
    requires Consistent(s, ms) && i < |s| && ms[i].None?
    ensures SubFrom(s, ms, i, rep) == [s[i]] + SubFrom(s, ms, i + 1, rep)
  {
  }

  /** Every match from position `i` on has no whitespace between its number and its unit. */
  predicate EmptyGaps(s: string, ms: seq<Option<Span>>, i: nat)
    requires |ms| == |s|
  {
    forall k :: i <= k < |s| && ms[k].Some? ==> ms[k].value.gapEnd == ms[k].value.numEnd
  }

  /** A match without a gap, joined, is replaced by itself. */
  lemma JoinMatchedStep(s: string, ms: seq<Option<Span>>, i: nat)
    requires Consistent(s, ms) && i < |s| && ms[i].Some? && ms[i].value.gapEnd == ms[i].value.numEnd
    requires SubFrom(s, ms, ms[i].value.end, JoinNumberUnit) == s[ms[i].value.end..]
    ensures SubFrom(s, ms, i, JoinNumberUnit) == s[i..]
  {
    var m := ms[i].value;
    SubMatched(s, ms, i, JoinNumberUnit);
    assert Replace(s, i, m, JoinNumberUnit) == s[i..m.numEnd] + s[m.numEnd..m.end];
    SliceSplit(s, i, m.numEnd);
    SliceSplit(s, m.numEnd, m.end);
    assert s[i..] == s[i..m.numEnd] + (s[m.numEnd..m.end] + s[m.end..]);
    assert SubFrom(s, ms, i, JoinNumberUnit) == (s[i..m.numEnd] + s[m.numEnd..m.end]) + s[m.end..];
  }

  lemma JoinUnmatchedStep(s: string, ms: seq<Option<Span>>, i: nat)
    requires Consistent(s, ms) && i < |s| && ms[i].None?
    requires SubFrom(s, ms, i + 1, JoinNumberUnit) == s[i + 1..]
    ensures SubFrom(s, ms, i, JoinNumberUnit) == s[i..]
  {
    SubUnmatched(s, ms, i, JoinNumberUnit);
    SliceSplit(s, i, i + 1);
    assert s[i..i + 1] == [s[i]];
  }

  /** Joining number and unit changes nothing when no match has whitespace inside it. */
  lemma {:induction false} JoinWithEmptyGapsIsIdentity(s: string, ms: seq<Option<Span>>, i: nat)
    requires Consistent(s, ms) && i <= |s| && EmptyGaps(s, ms, i)
    ensures SubFrom(s, ms, i, JoinNumberUnit) == s[i..]
    decreases |s| - i
  {
    if i < |s| {
      if ms[i].Some? {
        var m := ms[i].value;
        assert SpanFits(s, i, m);
        JoinWithEmptyGapsIsIdentity(s, ms, m.end);
        JoinMatchedStep(s, ms, i);
      } else {
        JoinWithEmptyGapsIsIdentity(s, ms, i + 1);
        JoinUnmatchedStep(s, ms, i);
      }
    }
  }

  /** In a text without whitespace no match has a gap. */
  lemma NoSpaceEmptyGaps(s: string, ms: seq<Option<Span>>)
    requires Consistent(s, ms)
    requires forall k :: 0 <= k < |s| ==> !IsSpace(s[k])
    ensures EmptyGaps(s, ms, 0)
  {
    forall k | 0 <= k < |s| && ms[k].Some? ensures ms[k].value.gapEnd == ms[k].value.numEnd {
      var m := ms[k].value;
      assert SpanFits(s, k, m);
      assert !IsSpace(s[m.numEnd]);
    }
  }

  /** A substitution that joins number and unit leaves a text without whitespace as it is. */
  lemma JoinWithoutSpaceIsIdentity(s: string, ms: seq<Option<Span>>)
    requires Consistent(s, ms)
    requires forall k :: 0 <= k < |s| ==> !IsSpace(s[k])
    ensures SubFrom(s, ms, 0, JoinNumberUnit) == s
  {
    NoSpaceEmptyGaps(s, ms);
    JoinWithEmptyGapsIsIdentity(s, ms, 0);
  }

  /** Every character of the substituted text satisfies `f` when every character of the input does. */
  lemma {:induction false} SubKeepsChars(s: string, ms: seq<Option<Span>>, i: nat, rep: Replacement, f: char -> bool)
    requires Consistent(s, ms) && i <= |s|
    requires forall k :: i <= k < |s| ==> f(s[k])
    ensures forall k :: 0 <= k < |SubFrom(s, ms, i, rep)| ==> f(SubFrom(s, ms, i, rep)[k])
    decreases |s| - i
  {
    if i < |s| {
      if ms[i].Some? {
        var m := ms[i].value;
        SubMatched(s, ms, i, rep);
        SubKeepsChars(s, ms, m.end, rep, f);
        ReplaceKeepsChars(s, ms, i, rep, f);
        AllCharsConcat(Replace(s, i, m, rep), SubFrom(s, ms, m.end, rep), f);
      } else {
        SubUnmatched(s, ms, i, rep);
        SubKeepsChars(s, ms, i + 1, rep, f);
        AllCharsConcat([s[i]], SubFrom(s, ms, i + 1, rep), f);
      }
    }
  }

  /** The text that replaces one match is made of the input's characters (or is empty). */
  lemma ReplaceKeepsChars(s: string, ms: seq<Option<Span>>, i: nat, rep: Replacement, f: char -> bool)
    requires Consistent(s, ms) && i < |s| && ms[i].Some?
    requires forall k :: i <= k < |s| ==> f(s[k])
    ensures forall k :: 0 <= k < |Replace(s, i, ms[i].value, rep)| ==> f(Replace(s, i, ms[i].value, rep)[k])
  {
    var m := ms[i].value;
    var a := Replace(s, i, m, rep);
    if rep.JoinNumberUnit? {
      forall k | 0 <= k < |a| ensures f(a[k]) {
        if k < m.numEnd - i {
          assert a[k] == s[i + k];
        } else {
          assert a[k] == s[m.gapEnd + (k - (m.numEnd - i))];
        }
      }
    }
  }

  lemma AllCharsConcat(a: string, b: string, f: char -> bool)
    requires forall k :: 0 <= k < |a| ==> f(a[k])
    requires forall k :: 0 <= k < |b| ==> f(b[k])
    ensures forall k :: 0 <= k < |a + b| ==> f((a + b)[k])
  {
  }

  /** The joined text starts with the character it replaces: a match starts with its first digit. */
  lemma SubFirstChar(s: string, ms: seq<Option<Span>>, i: nat)
    requires Consistent(s, ms) && i < |s|
    ensures SubFrom(s, ms, i, JoinNumberUnit) != [] && SubFrom(s, ms, i, JoinNumberUnit)[0] == s[i]
  {
    if ms[i].Some? {
      var m := ms[i].value;
      SubMatched(s, ms, i, JoinNumberUnit);
      assert Replace(s, i, m, JoinNumberUnit)[0] == s[i..m.numEnd][0] == s[i];
    } else {
      SubUnmatched(s, ms, i, JoinNumberUnit);
    }
  }

  /** A run of whitespace is copied unchanged: whitespace never starts a match. */
  lemma {:induction false} SubSpaces(s: string, ms: seq<Option<Span>>, j: nat, g: nat)
    requires Consistent(s, ms) && j <= g <= |s|
    requires forall k :: j <= k < g ==> IsSpace(s[k])
    ensures SubFrom(s, ms, j, JoinNumberUnit) == s[j..g] + SubFrom(s, ms, g, JoinNumberUnit)
    decreases g - j
  {
    if j < g {
      assert ms[j].None?;
      SubUnmatched(s, ms, j, JoinNumberUnit);
      SubSpaces(s, ms, j + 1, g);
      SliceCons(s, j, g);
      AppendAssoc([s[j]], s[j + 1..g], SubFrom(s, ms, g, JoinNumberUnit));
    }
  }

  /** Text without digits at the front of the joined text was there in the input already. */
  lemma {:induction false} DigitFreePrefixCopied(s: string, ms: seq<Option<Span>>, g: nat, w: string)
    requires Consistent(s, ms) && g <= |s|
    requires forall k :: 0 <= k < |w| ==> !IsDigit(w[k])
    requires w <= SubFrom(s, ms, g, JoinNumberUnit)
    ensures w <= s[g..]
    decreases |w|
  {
    if w != [] {
      assert g < |s| by {
        assert SubFrom(s, ms, g, JoinNumberUnit) != [];
      }
      DigitFreeStep(s, ms, g, w);
      DigitFreePrefixCopied(s, ms, g + 1, w[1..]);
      PrefixCons(w, s[g..]);
    }
  }

  lemma DigitFreeStep(s: string, ms: seq<Option<Span>>, g: nat, w: string)
    requires Consistent(s, ms) && g < |s| && w != [] && !IsDigit(w[0])
    requires w <= SubFrom(s, ms, g, JoinNumberUnit)
    ensures w[0] == s[g] && w[1..] <= SubFrom(s, ms, g + 1, JoinNumberUnit) && s[g..][1..] == s[g + 1..]
  {
    SubFirstChar(s, ms, g);
    assert ms[g].None?;
    SubUnmatched(s, ms, g, JoinNumberUnit);
  }

  lemma PrefixCons(w: string, x: string)
    requires w != [] && x != [] && w[0] == x[0] && w[1..] <= x[1..]
    ensures w <= x
  {
    assert w == [w[0]] + w[1..];
  }

  /** When `x[..n]` is whitespace and `x[n]` is not, the whitespace run at the front has length `n`. */
  lemma {:induction false} SkipSpacesPrefix(x: string, n: nat)
    requires n <= |x|
    requires forall k :: 0 <= k < n ==> IsSpace(x[k])
    requires n == |x| || !IsSpace(x[n])
    ensures SkipSpaces(x, 0) == n
  {
  }

  /** The whitespace run at the front of the joined text ends where it ends in the input. */
  lemma SkipSpacesOfSub(s: string, ms: seq<Option<Span>>, j: nat)
    requires Consistent(s, ms) && j <= |s|
    ensures (
      var g := SkipSpaces(s, j);
      var out := SubFrom(s, ms, j, JoinNumberUnit);
      && out == s[j..g] + SubFrom(s, ms, g, JoinNumberUnit)
      && SkipSpaces(out, 0) == g - j)
  {
    var g := SkipSpaces(s, j);
    SubSpaces(s, ms, j, g);
    var out := SubFrom(s, ms, j, JoinNumberUnit);
    var tail := SubFrom(s, ms, g, JoinNumberUnit);
    if g < |s| {
      SubFirstChar(s, ms, g);
      assert out[g - j] == tail[0] == s[g];
    }
    assert |out| == g - j + |tail|;
    SkipSpacesPrefix(out, g - j);
  }

  /** `x` starts with whitespace that is followed by a unit. */
  predicate SpacedUnitStart(x: string, units: seq<string>) {
    x != [] && IsSpace(x[0]) && UnitAt(x, SkipSpaces(x, 0), units, false) > 0
  }

  /** No digit of `y` is followed by whitespace and then a unit (as in "500 mg"). */
  predicate NoSpacedUnit(y: string, units: seq<string>) {
    forall k :: 0 <= k < |y| && IsDigit(y[k]) ==> !SpacedUnitStart(y[k + 1..], units)
  }

  /** A digit left unmatched is never followed by whitespace and a unit. */
  predicate NoMissedSpacedUnit(s: string, ms: seq<Option<Span>>, units: seq<string>)
    requires |ms| == |s|
  {
    forall i :: 0 <= i < |s| - 1 && ms[i].None? && IsDigit(s[i]) && IsSpace(s[i + 1]) ==>
      UnitAt(s, SkipSpaces(s, i + 1), units, false) == 0
  }

  /** The decimal pattern cannot miss a spaced unit after a digit. */
  lemma DecimalTableMissesNothing(s: string, units: seq<string>)
    requires WellFormedUnits(units)
    ensures NoMissedSpacedUnit(s, MatchTable(s, DecimalUnit(units, false)), units)
  {
    var p := DecimalUnit(units, false);
    var ms := MatchTable(s, p);
    forall i | 0 <= i < |s| - 1 && ms[i].None? && IsDigit(s[i]) && IsSpace(s[i + 1])
      ensures UnitAt(s, SkipSpaces(s, i + 1), units, false) == 0
    {
      assert MatchAt(s, i, p).None?;
      assert DigitRun(s, i + 1) == 0;
      assert NumberEnd(s, i, p) == i + 1;
    }
  }

  /** A spaced unit right after an unmatched digit in the joined text comes from the input. */
  lemma SpacedUnitTraced(s: string, ms: seq<Option<Span>>, i: nat, units: seq<string>)
    requires Consistent(s, ms) && WellFormedUnits(units) && i < |s|
    ensures SpacedUnitStart(SubFrom(s, ms, i + 1, JoinNumberUnit), units) ==>
      i + 1 < |s| && IsSpace(s[i + 1]) && UnitAt(s, SkipSpaces(s, i + 1), units, false) > 0
  {
    var out := SubFrom(s, ms, i + 1, JoinNumberUnit);
    if SpacedUnitStart(out, units) {
      assert i + 1 < |s|;
      SubFirstChar(s, ms, i + 1);
      var g := SkipSpaces(s, i + 1);
      SkipSpacesOfSub(s, ms, i + 1);
      var u := UnitAfterPrefix(out, s[i + 1..g], SubFrom(s, ms, g, JoinNumberUnit), units);
      DigitFreePrefixCopied(s, ms, g, u);
      UnitFoundAt(s, g, units, u);
    }
  }

  /** A unit found in `pre + tail` just after `pre` is a unit at the front of `tail`. */
  lemma UnitAfterPrefix(out: string, pre: string, tail: string, units: seq<string>) returns (u: string)
    requires WellFormedUnits(units)
    requires out == pre + tail && UnitAt(out, |pre|, units, false) > 0
    ensures u in units && u <= tail
    ensures forall j :: 0 <= j < |u| ==> !IsDigit(u[j])
  {
    UnitAtMeaning(out, |pre|, units, false);
    var k :| 0 <= k < |units| && UnitMatches(out, |pre|, units[k], false);
    u := units[k];
    DropAppend(pre, tail, |pre|);
    assert out[|pre|..][..|u|] == u;
  }

  /** A unit at the front of `s[g..]` is found by `UnitAt`. */
  lemma UnitFoundAt(s: string, g: nat, units: seq<string>, u: string)
    requires WellFormedUnits(units) && g <= |s|
    requires u in units && u <= s[g..]
    ensures UnitAt(s, g, units, false) > 0
  {
    var k :| 0 <= k < |units| && units[k] == u;
    assert s[g..g + |u|] == u;
    assert UnitMatches(s, g, units[k], false);
    UnitAtMeaning(s, g, units, false);
  }

  /** Gluing a piece in front keeps the property when every digit of the piece is safe. */
  lemma NoSpacedUnitConcat(a: string, b: string, units: seq<string>)
    requires NoSpacedUnit(b, units)
    requires forall k :: 0 <= k < |a| - 1 && IsDigit(a[k]) ==> !IsSpace(a[k + 1])
    requires a != [] && IsDigit(a[|a| - 1]) ==> !SpacedUnitStart(b, units)
    ensures NoSpacedUnit(a + b, units)
  {
    var y := a + b;
    forall k | 0 <= k < |y| && IsDigit(y[k]) ensures !SpacedUnitStart(y[k + 1..], units) {
      if k < |a| - 1 {
        assert y[k + 1..][0] == a[k + 1];
      } else {
        DropAppend(a, b, k + 1);
      }
    }
  }

  /** The number and unit of a match, joined, never end in a digit nor hold a digit before whitespace. */
  lemma JoinedPieceSafe(s: string, i: nat, m: Span)
    requires SpanFits(s, i, m)
    ensures (
      var a := Replace(s, i, m, JoinNumberUnit);
      && a != [] && !IsDigit(a[|a| - 1])
      && forall k :: 0 <= k < |a| - 1 && IsDigit(a[k]) ==> !IsSpace(a[k + 1]))
  {
    var a := Replace(s, i, m, JoinNumberUnit);
    var number, unit := s[i..m.numEnd], s[m.gapEnd..m.end];
    assert a == number + unit;
    assert a[|a| - 1] == s[m.end - 1];
    forall k | 0 <= k < |a| - 1 && IsDigit(a[k]) ensures !IsSpace(a[k + 1]) {
      if k + 1 < |number| {
        assert a[k + 1] == s[i + k + 1];
      } else {
        assert a[k + 1] == s[m.gapEnd + (k + 1 - |number|)];
      }
    }
  }

  /**
   * After `re.sub(r"(\d+(?:\.\d+)?)(\s*)(units)", r"\1\3", s)` no number is separated
   * from a unit by whitespace any more.
   */
  lemma {:induction false} JoinLeavesNoSpacedUnit(s: string, ms: seq<Option<Span>>, i: nat, units: seq<string>)
    requires Consistent(s, ms) && WellFormedUnits(units) && NoMissedSpacedUnit(s, ms, units) && i <= |s|
    ensures NoSpacedUnit(SubFrom(s, ms, i, JoinNumberUnit), units)
    decreases |s| - i
  {
    if i < |s| {
      if ms[i].Some? {
        var m := ms[i].value;
        SubMatched(s, ms, i, JoinNumberUnit);
        JoinLeavesNoSpacedUnit(s, ms, m.end, units);
        JoinedPieceSafe(s, i, m);
        NoSpacedUnitConcat(Replace(s, i, m, JoinNumberUnit), SubFrom(s, ms, m.end, JoinNumberUnit), units);
      } else {
        SubUnmatched(s, ms, i, JoinNumberUnit);
        JoinLeavesNoSpacedUnit(s, ms, i + 1, units);
        SpacedUnitTraced(s, ms, i, units);
        NoSpacedUnitConcat([s[i]], SubFrom(s, ms, i + 1, JoinNumberUnit), units);
      }
    }
  }

  /** A unit matches in a suffix exactly where it matches in the whole text. */
  lemma {:induction false} UnitAtSuffix(x: string, a: nat, j: nat, units: seq<string>, fold: bool)
    requires a <= |x|
    ensures UnitAt(x[a..], j, units, fold) == UnitAt(x, a + j, units, fold)
  {
    if units != [] {
      var u := units[0];
      if j + |u| <= |x[a..]| {
        assert x[a..][j..j + |u|] == x[a + j..a + j + |u|];
      }
      UnitAtSuffix(x, a, j, units[1..], fold);
    }
  }

  /** The whitespace run at the front of a suffix. */
  lemma SkipSpacesSuffix(x: string, a: nat)
    requires a <= |x|
    ensures SkipSpaces(x[a..], 0) == SkipSpaces(x, a) - a
  {
    var g := SkipSpaces(x, a);
    var y := x[a..];
    assert forall k :: 0 <= k < g - a ==> y[k] == x[a + k];
    if g < |x| {
      assert y[g - a] == x[g];
    }
    SkipSpacesPrefix(y, g - a);
  }

  /** A decimal match with whitespace inside it is a digit followed by a spaced unit. */
  lemma MatchWithGapIsSpaced(s: string, i: nat, units: seq<string>)
    requires WellFormedUnits(units) && i <= |s|
    ensures (
      var r := MatchAt(s, i, DecimalUnit(units, false));
      r.Some? && r.value.gapEnd > r.value.numEnd ==>
        0 < r.value.numEnd <= |s| && IsDigit(s[r.value.numEnd - 1])
        && SpacedUnitStart(s[r.value.numEnd..], units))
  {
    var p := DecimalUnit(units, false);
    var r := MatchAt(s, i, p);
    if r.Some? && r.value.gapEnd > r.value.numEnd {
      var m := r.value;
      MatchAtMeaning(s, i, p);
      assert m.gapEnd == SkipSpaces(s, m.numEnd);
      assert UnitAt(s, m.gapEnd, units, false) > 0;
      SkipSpacesSuffix(s, m.numEnd);
      UnitAtSuffix(s, m.numEnd, m.gapEnd - m.numEnd, units, false);
      assert s[m.numEnd..][0] == s[m.numEnd];
    }
  }

  /** When no number is separated from its unit by whitespace, no decimal match has a gap. */
  lemma NoSpacedUnitEmptyGaps(s: string, units: seq<string>)
    requires WellFormedUnits(units) && NoSpacedUnit(s, units)
    ensures EmptyGaps(s, MatchTable(s, DecimalUnit(units, false)), 0)
  {
    var ms := MatchTable(s, DecimalUnit(units, false));
    forall k | 0 <= k < |s| && ms[k].Some? ensures ms[k].value.gapEnd == ms[k].value.numEnd {
      MatchWithGapIsSpaced(s, k, units);
    }
  }

  // ---------------------------------------------------------------------------
  // Matches inside a text that is followed by whitespace and a digit
  // ---------------------------------------------------------------------------

  /** A digit run that starts inside `b` stops where `b` ends when a non-digit follows. */
  lemma {:induction false} DigitRunExtend(b: string, t: string, i: nat)
    requires i <= |b| && t != [] && !IsDigit(t[0])
    ensures DigitRun(b + t, i) == DigitRun(b, i)
    decreases |b| - i
  {
    var s := b + t;
    if i < |b| {
      assert s[i] == b[i];
      DigitRunExtend(b, t, i + 1);
    } else {
      assert s[i] == t[0];
    }
  }

  /** The whitespace run from `e` stops inside `b`, or runs over the one whitespace character after it. */
  lemma SkipSpacesExtend(b: string, t: string, e: nat)
    requires e <= |b| && |t| >= 2 && IsSpace(t[0]) && !IsSpace(t[1])
    ensures SkipSpaces(b + t, e) == if SkipSpaces(b, e) < |b| then SkipSpaces(b, e) else |b| + 1
  {
    var s := b + t;
    var gb := SkipSpaces(b, e);
    var g := if gb < |b| then gb else |b| + 1;
    forall k | e <= k < g ensures IsSpace(s[k]) {
      if k < |b| { assert s[k] == b[k]; } else { assert s[k] == t[0]; }
    }
    if gb < |b| { assert s[g] == b[g]; } else { assert s[g] == t[1]; }
  }

  /** A unit that would run into the whitespace after `b` matches in neither text. */
  lemma {:induction false} UnitAtExtend(b: string, t: string, g: nat, units: seq<string>, fold: bool)
    requires WellFormedUnits(units) && g <= |b| && t != [] && IsSpace(t[0])
    ensures UnitAt(b + t, g, units, fold) == UnitAt(b, g, units, fold)
  {
    if units != [] {
      var s, u := b + t, units[0];
      if g + |u| <= |b| {
        assert s[g..g + |u|] == b[g..g + |u|];
      } else if g + |u| <= |s| {
        var x := s[g..g + |u|];
        var m := |b| - g;
        assert x[m] == t[0] && !IsSpace(u[m]);
        if fold {
          assert Lower(x)[m] == LowerChar(t[0]);
        }
      }
      UnitAtExtend(b, t, g, units[1..], fold);
    }
  }

  /** No unit starts with a digit. */
  lemma {:induction false} UnitAtDigit(s: string, g: nat, units: seq<string>, fold: bool)
    requires WellFormedUnits(units) && g < |s| && IsDigit(s[g])
    ensures UnitAt(s, g, units, fold) == 0
  {
    if units != [] {
      var u := units[0];
      if g + |u| <= |s| {
        var x := s[g..g + |u|];
        assert x[0] == s[g] && !IsDigit(u[0]);
        if fold {
          assert Lower(x)[0] == LowerChar(s[g]);
        }
      }
      UnitAtDigit(s, g, units[1..], fold);
    }
  }

  /** No unit matches at a character that no unit starts with. */
  lemma {:induction false} UnitAtNotStart(s: string, g: nat, units: seq<string>, fold: bool)
    requires WellFormedUnits(units) && g < |s|
    requires forall k :: 0 <= k < |units| ==> units[k][0] != (if fold then LowerChar(s[g]) else s[g])
    ensures UnitAt(s, g, units, fold) == 0
  {
    if units != [] {
      var u := units[0];
      if g + |u| <= |s| {
        var x := s[g..g + |u|];
        assert x[0] == s[g];
        if fold {
          assert Lower(x)[0] == LowerChar(s[g]);
        }
      }
      UnitAtNotStart(s, g, units[1..], fold);
    }
  }

  /** No unit fits at the very end of a text. */
  lemma {:induction false} UnitAtEnd(s: string, units: seq<string>, fold: bool)
    requires WellFormedUnits(units)
    ensures UnitAt(s, |s|, units, fold) == 0
  {
    if units != [] {
      UnitAtEnd(s, units[1..], fold);
    }
  }

  /** A decimal number that starts inside `b` ends where it ends in `b` when whitespace follows `b`. */
  lemma NumberEndExtend(b: string, t: string, i: nat, units: seq<string>, fold: bool)
    requires i < |b| && t != [] && IsSpace(t[0])
    ensures NumberEnd(b + t, i, DecimalUnit(units, fold)) == NumberEnd(b, i, DecimalUnit(units, fold))
  {
    var s := b + t;
    DigitRunExtend(b, t, i);
    var e0 := i + DigitRun(b, i);
    if e0 + 1 < |b| {
      assert s[e0] == b[e0] && s[e0 + 1] == b[e0 + 1];
      DigitRunExtend(b, t, e0 + 1);
    } else if e0 + 1 == |b| {
      assert s[e0 + 1] == t[0];
    } else {
      assert s[e0] == t[0];
    }
  }

  /**
   * A decimal-pattern match that starts inside `b` is the same match in `b + t` when `t`
   * starts with whitespace and then a digit: no number, whitespace run or unit can reach
   * into `t` and come back a match.
   */
  lemma MatchAtExtend(b: string, t: string, i: nat, units: seq<string>, fold: bool)
    requires WellFormedUnits(units) && i < |b|
    requires |t| >= 2 && IsSpace(t[0]) && IsDigit(t[1])
    ensures MatchAt(b + t, i, DecimalUnit(units, fold)) == MatchAt(b, i, DecimalUnit(units, fold))
  {
    var s, p := b + t, DecimalUnit(units, fold);
    assert DigitRun(s, i) == DigitRun(b, i) by {
      DigitRunExtend(b, t, i);
    }
    if DigitRun(b, i) > 0 {
      var e := NumberEnd(b, i, p);
      assert NumberEnd(s, i, p) == e by {
        NumberEndExtend(b, t, i, units, fold);
      }
      var gb := SkipSpaces(b, e);
      assert GapEnd(b, e, p) == gb;
      assert GapEnd(s, e, p) == if gb < |b| then gb else |b| + 1 by {
        SkipSpacesExtend(b, t, e);
      }
      if gb < |b| {
        assert UnitAt(s, gb, units, fold) == UnitAt(b, gb, units, fold) by {
          UnitAtExtend(b, t, gb, units, fold);
        }
      } else {
        NoUnitAcrossEnd(b, t, units, fold);
      }
    }
  }

  /** Neither at the end of `b` nor at the digit after the whitespace that follows it does a unit start. */
  lemma NoUnitAcrossEnd(b: string, t: string, units: seq<string>, fold: bool)
    requires WellFormedUnits(units) && |t| >= 2 && IsDigit(t[1])
    ensures UnitAt(b, |b|, units, fold) == 0 && UnitAt(b + t, |b| + 1, units, fold) == 0
  {
    UnitAtEnd(b, units, fold);
    assert (b + t)[|b| + 1] == t[1];
    UnitAtDigit(b + t, |b| + 1, units, fold);
  }

  /** The scan over `b + t` first does the scan over `b`, when the matches inside `b` agree. */
  lemma {:induction false} SubFromExtend(b: string, t: string, ms: seq<Option<Span>>, mb: seq<Option<Span>>, i: nat, rep: Replacement)
    requires Consistent(b + t, ms) && Consistent(b, mb) && i <= |b|
    requires forall k :: 0 <= k < |b| ==> ms[k] == mb[k]
    ensures SubFrom(b + t, ms, i, rep) == SubFrom(b, mb, i, rep) + SubFrom(b + t, ms, |b|, rep)
    decreases |b| - i
  {
    if i < |b| {
      var s := b + t;
      var tail := SubFrom(s, ms, |b|, rep);
      assert s[i] == b[i];
      assert ms[i] == mb[i];
      if mb[i].Some? {
        var m := mb[i].value;
        var piece := Replace(b, i, m, rep);
        assert SubFrom(s, ms, i, rep) == piece + SubFrom(s, ms, m.end, rep) by {
          SubMatched(s, ms, i, rep);
          assert s[i..m.numEnd] == b[i..m.numEnd] && s[m.gapEnd..m.end] == b[m.gapEnd..m.end];
        }
        assert SubFrom(b, mb, i, rep) == piece + SubFrom(b, mb, m.end, rep) by {
          SubMatched(b, mb, i, rep);
        }
        SubFromExtend(b, t, ms, mb, m.end, rep);
        AppendAssoc(piece, SubFrom(b, mb, m.end, rep), tail);
      } else {
        assert SubFrom(s, ms, i, rep) == [b[i]] + SubFrom(s, ms, i + 1, rep) by {
          SubUnmatched(s, ms, i, rep);
        }
        assert SubFrom(b, mb, i, rep) == [b[i]] + SubFrom(b, mb, i + 1, rep) by {
          SubUnmatched(b, mb, i, rep);
        }
        SubFromExtend(b, t, ms, mb, i + 1, rep);
        AppendAssoc([b[i]], SubFrom(b, mb, i + 1, rep), tail);
      }
    }
  }

  /** A match that starts at the front and runs to the end is the whole substitution. */
  lemma SubOfWholeMatch(s: string, p: Pattern, m: Span, rep: Replacement)
    requires WellFormedUnits(p.Units()) && s != [] && MatchAt(s, 0, p) == Some(m) && m.end == |s|
    ensures Sub(s, p, rep) == Replace(s, 0, m, rep)
  {
    var ms := MatchTable(s, p);
    SubMatched(s, ms, 0, rep);
    assert SubFrom(s, ms, |s|, rep) == [];
  }

  /** Where nothing matches, the scan copies the text. */
  lemma {:induction false} SubWithoutMatches(s: string, ms: seq<Option<Span>>, i: nat, rep: Replacement)
    requires Consistent(s, ms) && i <= |s|
    requires forall k :: i <= k < |s| ==> ms[k].None?
    ensures SubFrom(s, ms, i, rep) == s[i..]
    decreases |s| - i
  {
    if i < |s| {
      SubUnmatched(s, ms, i, rep);
      SubWithoutMatches(s, ms, i + 1, rep);
      assert s[i..] == [s[i]] + s[i + 1..];
    }
  }

  /** At a text that starts with a unit written in any case, the unit alternatives find exactly that unit. */
  lemma UnitAtOfLower(s: string, e: nat, u: string, units: seq<string>)
    requires e <= |s| && s[e..] == u && Lower(u) in units && WellFormedUnits(units) && PrefixFree(units)
    ensures UnitAt(s, e, units, true) == |u|
  {
    var lu := Lower(u);
    var k0 :| 0 <= k0 < |units| && units[k0] == lu;
    LowerOfSlice(s, e, u, |u|);
    assert UnitMatches(s, e, units[k0], true);
    UnitAtMeaning(s, e, units, true);
    var k :| 0 <= k < |units| && UnitMatches(s, e, units[k], true) && UnitAt(s, e, units, true) == |units[k]|;
    var n := |units[k]|;
    assert n <= |u| && units[k] == Lower(s[e..e + n]);
    LowerOfSlice(s, e, u, n);
    assert units[k] == units[k0][..n];
    assert UnitPrefix(units, k, k0);
  }

  lemma LowerOfSlice(s: string, e: nat, u: string, n: nat)
    requires e <= |s| && s[e..] == u && n <= |u|
    ensures Lower(s[e..e + n]) == Lower(u)[..n]
  {
    assert s[e..e + n] == u[..n];
  }

  /** The digit run from `i` is `n` long when `n` digits follow `i` and then no digit. */
  lemma {:induction false} DigitRunIs(s: string, i: nat, n: nat)
    requires i + n <= |s| && (forall j :: i <= j < i + n ==> IsDigit(s[j]))
    requires i + n == |s| || !IsDigit(s[i + n])
    ensures DigitRun(s, i) == n
    decreases n
  {
    if n > 0 {
      DigitRunIs(s, i + 1, n - 1);
    }
  }

  /** A unit written in any case has no digit, whitespace or dot in it. */
  lemma UnitCharsOfLower(u: string, units: seq<string>)
    requires Lower(u) in units && WellFormedUnits(units)
    ensures u != []
    ensures forall j :: 0 <= j < |u| ==> !IsDigit(u[j]) && !IsSpace(u[j]) && u[j] != '.'
  {
    var k :| 0 <= k < |units| && units[k] == Lower(u);
    forall j | 0 <= j < |u| ensures !IsDigit(u[j]) && !IsSpace(u[j]) && u[j] != '.' {
      assert Lower(u)[j] == LowerChar(u[j]);
    }
  }

  /**
   * Digits from `i` up to `e`, then a unit written in any case up to the end: the
   * case-insensitive decimal pattern matches all of it, without whitespace in between.
   */
  lemma NumberAndUnitMatch(s: string, i: nat, e: nat, units: seq<string>)
    requires WellFormedUnits(units) && PrefixFree(units) && i < e <= |s|
    requires forall j :: i <= j < e ==> IsDigit(s[j])
    requires Lower(s[e..]) in units
    ensures MatchAt(s, i, DecimalUnit(units, true)) == Some(Span(e, e, |s|))
  {
    var u := s[e..];
    assert e < |s| && !IsDigit(s[e]) && !IsSpace(s[e]) && s[e] != '.' by {
      UnitCharsOfLower(u, units);
      assert s[e] == u[0];
    }
    assert DigitRun(s, i) == e - i by {
      DigitRunIs(s, i, e - i);
    }
    assert NumberEnd(s, i, DecimalUnit(units, true)) == e;
    assert SkipSpaces(s, e) == e;
    assert UnitAt(s, e, units, true) == |s| - e by {
      UnitAtOfLower(s, e, u, units);
    }
  }

  // ---------------------------------------------------------------------------
  // The integer pattern: at most one whitespace character between number and unit
  // ---------------------------------------------------------------------------

  lemma ScraperUnitsPrefixFree()
    ensures PrefixFree(ScraperUnits)
  {
    forall j, k | UnitPrefix(ScraperUnits, j, k)
      ensures j == k
    {
      var v, w := ScraperUnits[j], ScraperUnits[k];
      assert v[0] == w[0] && (|v| > 1 ==> v[1] == w[1]);
    }
  }

  /** At a text that ends with a unit, compared case-sensitively, the alternatives find exactly that unit. */
  lemma UnitAtExact(s: string, e: nat, u: string, units: seq<string>)
    requires e <= |s| && s[e..] == u && u in units && WellFormedUnits(units) && PrefixFree(units)
    ensures UnitAt(s, e, units, false) == |u|
  {
    var k0 :| 0 <= k0 < |units| && units[k0] == u;
    assert s[e..e + |u|] == u;
    assert UnitMatches(s, e, units[k0], false);
    UnitAtMeaning(s, e, units, false);
    var k :| 0 <= k < |units| && UnitMatches(s, e, units[k], false) && UnitAt(s, e, units, false) == |units[k]|;
    var n := |units[k]|;
    assert n <= |u| && units[k] == s[e..e + n];
    assert s[e..e + n] == u[..n];
    assert units[k] == units[k0][..n];
    assert UnitPrefix(units, k, k0);
  }

  /** Digits, one whitespace character, then a unit up to the end: the integer pattern matches all of it. */
  lemma NumberSpaceUnitMatch(s: string, e: nat, units: seq<string>)
    requires WellFormedUnits(units) && PrefixFree(units) && 0 < e < |s|
    requires (forall j :: 0 <= j < e ==> IsDigit(s[j])) && IsSpace(s[e])
    requires s[e + 1..] in units
    ensures MatchAt(s, 0, IntegerUnit(units)) == Some(Span(e, e + 1, |s|))
  {
    assert !IsDigit(s[e]);
    assert DigitRun(s, 0) == e by {
      DigitRunIs(s, 0, e);
    }
    assert GapEnd(s, e, IntegerUnit(units)) == e + 1;
    assert UnitAt(s, e + 1, units, false) == |s| - (e + 1) by {
      UnitAtExact(s, e + 1, s[e + 1..], units);
    }
  }

  /** `x` starts with one whitespace character that is followed by a unit. */
  predicate OneSpaceUnitStart(x: string, units: seq<string>) {
    x != [] && IsSpace(x[0]) && UnitAt(x, 1, units, false) > 0
  }

  /** No digit of `y` is followed by exactly one whitespace character and then a unit (as in "500\tmg"). */
  predicate NoOneSpaceUnit(y: string, units: seq<string>) {
    forall k :: 0 <= k < |y| && IsDigit(y[k]) ==> !OneSpaceUnitStart(y[k + 1..], units)
  }

  /** A digit left unmatched is never followed by one whitespace character and a unit. */
  predicate NoMissedOneSpaceUnit(s: string, ms: seq<Option<Span>>, units: seq<string>)
    requires |ms| == |s|
  {
    forall i :: 0 <= i < |s| - 1 && ms[i].None? && IsDigit(s[i]) && IsSpace(s[i + 1]) ==>
      UnitAt(s, i + 2, units, false) == 0
  }

  /** The integer pattern cannot miss a unit one whitespace character after a digit. */
  lemma IntegerTableMissesNothing(s: string, units: seq<string>)
    requires WellFormedUnits(units)
    ensures NoMissedOneSpaceUnit(s, MatchTable(s, IntegerUnit(units)), units)
  {
    var p := IntegerUnit(units);
    var ms := MatchTable(s, p);
    forall i | 0 <= i < |s| - 1 && ms[i].None? && IsDigit(s[i]) && IsSpace(s[i + 1])
      ensures UnitAt(s, i + 2, units, false) == 0
    {
      assert MatchAt(s, i, p).None?;
      assert DigitRun(s, i + 1) == 0;
      assert NumberEnd(s, i, p) == i + 1;
      assert GapEnd(s, i + 1, p) == i + 2;
    }
  }

  /** One whitespace character and a unit right after an unmatched digit of the joined text come from the input. */
  lemma OneSpaceUnitTraced(s: string, ms: seq<Option<Span>>, i: nat, units: seq<string>)
    requires Consistent(s, ms) && WellFormedUnits(units) && i < |s|
    ensures OneSpaceUnitStart(SubFrom(s, ms, i + 1, JoinNumberUnit), units) ==>
      i + 1 < |s| && IsSpace(s[i + 1]) && UnitAt(s, i + 2, units, false) > 0
  {
    var out := SubFrom(s, ms, i + 1, JoinNumberUnit);
    if OneSpaceUnitStart(out, units) {
      assert i + 1 < |s|;
      SubFirstChar(s, ms, i + 1);
      assert ms[i + 1].None?;
      SubUnmatched(s, ms, i + 1, JoinNumberUnit);
      var u := UnitAfterPrefix(out, [s[i + 1]], SubFrom(s, ms, i + 2, JoinNumberUnit), units);
      DigitFreePrefixCopied(s, ms, i + 2, u);
      UnitFoundAt(s, i + 2, units, u);
    }
  }

  /** Gluing a piece in front keeps the property when every digit of the piece is safe. */
  lemma NoOneSpaceUnitConcat(a: string, b: string, units: seq<string>)
    requires NoOneSpaceUnit(b, units)
    requires forall k :: 0 <= k < |a| - 1 && IsDigit(a[k]) ==> !IsSpace(a[k + 1])
    requires a != [] && IsDigit(a[|a| - 1]) ==> !OneSpaceUnitStart(b, units)
    ensures NoOneSpaceUnit(a + b, units)
  {
    var y := a + b;
    forall k | 0 <= k < |y| && IsDigit(y[k]) ensures !OneSpaceUnitStart(y[k + 1..], units) {
      if k < |a| - 1 {
        assert y[k + 1..][0] == a[k + 1];
      } else {
        DropAppend(a, b, k + 1);
      }
    }
  }

  /**
   * After `re.sub(r"(\d+)\s?(units)", r"\1\2", s)` no number is separated from a unit by
   * exactly one whitespace character any more.
   */
  lemma {:induction false} JoinLeavesNoOneSpaceUnit(s: string, ms: seq<Option<Span>>, i: nat, units: seq<string>)
    requires Consistent(s, ms) && WellFormedUnits(units) && NoMissedOneSpaceUnit(s, ms, units) && i <= |s|
    ensures NoOneSpaceUnit(SubFrom(s, ms, i, JoinNumberUnit), units)
    decreases |s| - i
  {
    if i < |s| {
      if ms[i].Some? {
        var m := ms[i].value;
        SubMatched(s, ms, i, JoinNumberUnit);
        JoinLeavesNoOneSpaceUnit(s, ms, m.end, units);
        JoinedPieceSafe(s, i, m);
        NoOneSpaceUnitConcat(Replace(s, i, m, JoinNumberUnit), SubFrom(s, ms, m.end, JoinNumberUnit), units);
      } else {
        SubUnmatched(s, ms, i, JoinNumberUnit);
        JoinLeavesNoOneSpaceUnit(s, ms, i + 1, units);
        OneSpaceUnitTraced(s, ms, i, units);
        NoOneSpaceUnitConcat([s[i]], SubFrom(s, ms, i + 1, JoinNumberUnit), units);
      }
    }
  }
}
