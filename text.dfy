/**
 * The Python string built-ins the pipeline scripts lean on, restricted to ASCII:
 * character classes (`\s`, `\d`, `\w`), `lower`, `strip`, `split`, `re.sub(r"\s+", " ", ...)`,
 * `title`, `find`/`replace(k, '', 1)`, the `[^\d.]` filter, `float()` on the string that
 * filter leaves, and `round(x, 2)` on exact reals.
 */
module Text {
  import opened Wrappers

  // ---------------------------------------------------------------------------
  // Character classes
  // ---------------------------------------------------------------------------

  /** `str.isspace()` and the regex class `\s`, on ASCII characters. */
  predicate IsSpace(c: char) {
    c == ' ' || c == '\t' || c == '\n' || c == '\r' || c == '\U{B}' || c == '\U{C}'
    || ('\U{1C}' <= c <= '\U{1F}')
  }

  /** The regex class `\d`, on ASCII characters. */
  predicate IsDigit(c: char) { '0' <= c <= '9' }

  predicate IsUpper(c: char) { 'A' <= c <= 'Z' }

  predicate IsLowerLetter(c: char) { 'a' <= c <= 'z' }

  predicate IsLetter(c: char) { IsUpper(c) || IsLowerLetter(c) }

  predicate IsAlnum(c: char) { IsLetter(c) || IsDigit(c) }

  /** The regex class `\w`, on ASCII characters. */
  predicate IsWordChar(c: char) { IsAlnum(c) || c == '_' }

  /** The numeric value of an ASCII digit. */
  function DigitValue(c: char): (d: nat)
    requires IsDigit(c)
    ensures d < 10
  {
    c as int - '0' as int
  }

  // ---------------------------------------------------------------------------
  // Case mapping
  // ---------------------------------------------------------------------------

  function LowerChar(c: char): (r: char)
    ensures !IsUpper(r)
    ensures IsLetter(r) <==> IsLetter(c)
    ensures IsDigit(r) <==> IsDigit(c)
    ensures IsSpace(r) <==> IsSpace(c)
    ensures !IsUpper(c) ==> r == c
  {
    if IsUpper(c) then (c as int + 32) as char else c
  }

  function UpperChar(c: char): (r: char)
    ensures !IsLowerLetter(r)
    ensures IsLetter(r) <==> IsLetter(c)
    ensures !IsLowerLetter(c) ==> r == c
  {
    if IsLowerLetter(c) then (c as int - 32) as char else c
  }

  /** `str.lower()`. */
  function Lower(s: string): (r: string)
    ensures |r| == |s|
    ensures forall i :: 0 <= i < |s| ==> r[i] == LowerChar(s[i])
  {
    seq(|s|, i requires 0 <= i < |s| => LowerChar(s[i]))
  }

  /** Character `i` of `str.title()`: upper-cased when it starts a run of letters, else lower-cased. */
  function TitleChar(s: string, i: nat): (c: char)
    requires i < |s|
    ensures !IsLetter(s[i]) ==> c == s[i]
    ensures IsLetter(c) <==> IsLetter(s[i])
    ensures IsLetter(s[i]) && (i == 0 || !IsLetter(s[i - 1])) ==> IsUpper(c)
    ensures 0 < i && IsLetter(s[i]) && IsLetter(s[i - 1]) ==> IsLowerLetter(c)
  {
    if IsLetter(s[i]) && (i == 0 || !IsLetter(s[i - 1])) then UpperChar(s[i]) else LowerChar(s[i])
  }

  /** `str.title()`: a letter is upper-cased when it starts a run of letters, lower-cased otherwise. */
  function Title(s: string): (r: string)
    ensures |r| == |s|
    ensures forall i :: 0 <= i < |s| && !IsLetter(s[i]) ==> r[i] == s[i]
    ensures forall i :: 0 <= i < |s| ==> (IsLetter(r[i]) <==> IsLetter(s[i]))
    ensures forall i :: 0 <= i < |s| && IsLetter(s[i]) && (i == 0 || !IsLetter(s[i - 1])) ==> IsUpper(r[i])
    ensures forall i :: 0 < i < |s| && IsLetter(s[i]) && IsLetter(s[i - 1]) ==> IsLowerLetter(r[i])
  {
    var r := seq(|s|, i requires 0 <= i < |s| => TitleChar(s, i));
    assert forall i :: 0 <= i < |s| ==> r[i] == TitleChar(s, i);
    r
  }

  // ---------------------------------------------------------------------------
  // Sequence identities, stated once so that proofs in busy contexts can cite them
  // ---------------------------------------------------------------------------

  lemma AppendAssoc<T>(x: seq<T>, y: seq<T>, z: seq<T>)
    ensures (x + y) + z == x + (y + z)
  {
  }

  lemma SliceCons<T>(s: seq<T>, j: nat, g: nat)
    requires j < g <= |s|
    ensures s[j..g] == [s[j]] + s[j + 1..g]
  {
  }

  lemma DropAppend<T>(a: seq<T>, b: seq<T>, j: nat)
    requires |a| <= j <= |a| + |b|
    ensures (a + b)[j..] == b[j - |a|..]
  {
  }

  /** `a` and `b` joined by a separator `c`, taken apart again. */
  lemma JoinedAt<T>(a: seq<T>, c: T, b: seq<T>)
    ensures |a + [c] + b| == |a| + 1 + |b|
    ensures (a + [c] + b)[|a|] == c
    ensures (a + [c] + b)[..|a|] == a
    ensures (a + [c] + b)[|a| + 1..] == b
  {
  }

  // ---------------------------------------------------------------------------
  // Whitespace
  // ---------------------------------------------------------------------------

  /** The first index at or after `i` that does not hold whitespace (or `|s|`). */
  function SkipSpaces(s: string, i: nat): (j: nat)
    requires i <= |s|
    ensures i <= j <= |s| && (j == |s| || !IsSpace(s[j]))
    ensures forall k :: i <= k < j ==> IsSpace(s[k])
    decreases |s| - i
  {
    if i < |s| && IsSpace(s[i]) then SkipSpaces(s, i + 1) else i
  }

  /** The least index `k >= lo` such that `s[k..j]` is all whitespace. */
  function BackSpaces(s: string, lo: nat, j: nat): (k: nat)
    requires lo <= j <= |s|
    ensures lo <= k <= j && (k == lo || !IsSpace(s[k - 1]))
    ensures forall m :: k <= m < j ==> IsSpace(s[m])
    decreases j
  {
    if lo < j && IsSpace(s[j - 1]) then BackSpaces(s, lo, j - 1) else j
  }

  /** `str.lstrip()`. */
  function TrimStart(s: string): (r: string)
    ensures r == [] || !IsSpace(r[0])
  {
    s[SkipSpaces(s, 0)..]
  }

  /** Everything in `s` before index `a` and from index `b` on is whitespace. */
  predicate SpacesOutside(s: string, a: int, b: int) {
    && 0 <= a <= b <= |s|
    && (forall k :: 0 <= k < a ==> IsSpace(s[k]))
    && (forall k :: b <= k < |s| ==> IsSpace(s[k]))
  }

  /**
   * `str.strip()`: the slice of `s` left when the whitespace at both ends is cut away, which
   * itself neither starts nor ends with whitespace.
   */
  function Strip(s: string): (r: string)
    ensures r == [] || (!IsSpace(r[0]) && !IsSpace(r[|r| - 1]))
    ensures var a := SkipSpaces(s, 0); SpacesOutside(s, a, a + |r|) && r == s[a..a + |r|]
  {
    var a := SkipSpaces(s, 0);
    s[a..BackSpaces(s, a, |s|)]
  }

  /** Only one slice of `s` has whitespace all around it and none at its ends: `Strip(s)`. */
  lemma StripUnique(s: string, a: nat, b: nat)
    requires SpacesOutside(s, a, b) && Trimmed(s[a..b])
    ensures Strip(s) == s[a..b]
  {
    var a' := SkipSpaces(s, 0);
    var b' := BackSpaces(s, a', |s|);
    if a < b {
      assert !IsSpace(s[a]) && !IsSpace(s[b - 1]);
      assert a' == a;
      assert b' == b;
    } else {
      assert a' == |s|;
    }
  }

  /** No whitespace character other than `' '`, and never two spaces in a row. */
  predicate SingleSpaced(s: string) {
    && (forall i :: 0 <= i < |s| && IsSpace(s[i]) ==> s[i] == ' ')
    && (forall i :: 0 < i < |s| && s[i] == ' ' ==> s[i - 1] != ' ')
  }

  /** Neither starts nor ends with whitespace. */
  predicate Trimmed(s: string) {
    s == [] || (!IsSpace(s[0]) && !IsSpace(s[|s| - 1]))
  }

  /**
   * `str.split()`: the maximal runs of non-whitespace characters, in order. A character that
   * is not whitespace extends the word of the next character when that one is not whitespace
   * either, and ends a word otherwise.
   */
  function Words(s: string): (ws: seq<string>)
    ensures s != [] && !IsSpace(s[0]) ==> ws != [] && ws[0] != [] && ws[0][0] == s[0]
    ensures forall k :: 0 <= k < |ws| ==> ws[k] != []
  {
    if s == [] then []
    else
      var rest := Words(s[1..]);
      if IsSpace(s[0]) then rest
      else if |s| > 1 && !IsSpace(s[1]) then [[s[0]] + rest[0]] + rest[1..]
      else [[s[0]]] + rest
  }

  /** The first step of `Words`, for a string given as a character and the rest. */
  lemma WordsCons(c: char, t: string)
    ensures Words([c] + t) ==
      if IsSpace(c) then Words(t)
      else if t != [] && !IsSpace(t[0]) then [[c] + Words(t)[0]] + Words(t)[1..]
      else [[c]] + Words(t)
  {
    assert ([c] + t)[1..] == t;
  }

  /** A word holds no whitespace, and the words together hold the non-whitespace characters. */
  lemma {:induction false} WordsMeaning(s: string)
    ensures forall k, j :: 0 <= k < |Words(s)| && 0 <= j < |Words(s)[k]| ==> !IsSpace(Words(s)[k][j])
    ensures Concat(Words(s)) == NonSpace(s)
  {
    if s != [] {
      var t := s[1..];
      WordsMeaning(t);
      var ws := Words(t);
      assert s == [s[0]] + t;
      WordsCons(s[0], t);
      if !IsSpace(s[0]) {
        if t != [] && !IsSpace(t[0]) {
          assert ws == [ws[0]] + ws[1..];
          ConcatCons(ws[0], ws[1..]);
          ConcatCons([s[0]] + ws[0], ws[1..]);
          var w := [s[0]] + ws[0];
          forall j | 0 <= j < |w| ensures !IsSpace(w[j]) {
            if j > 0 { assert w[j] == ws[0][j - 1]; }
          }
        } else {
          ConcatCons([s[0]], ws);
        }
      }
    }
  }

  /** The strings of `ws` written one after another. */
  function Concat(ws: seq<string>): (r: string)
    ensures ws == [] ==> r == []
  {
    if ws == [] then [] else ws[0] + Concat(ws[1..])
  }

  lemma ConcatCons(w: string, ws: seq<string>)
    ensures Concat([w] + ws) == w + Concat(ws)
  {
    assert ([w] + ws)[1..] == ws;
  }

  /** Whitespace at the front of a string does not change its words. */
  lemma {:induction false} WordsSkip(s: string, i: nat, j: nat)
    requires i <= j <= |s|
    requires forall k :: i <= k < j ==> IsSpace(s[k])
    ensures Words(s[i..]) == Words(s[j..])
    decreases j - i
  {
    if i < j {
      assert s[i..] == [s[i]] + s[i + 1..];
      WordsCons(s[i], s[i + 1..]);
      WordsSkip(s, i + 1, j);
    }
  }

  /** Whitespace at the back of a string does not change its words. */
  lemma {:induction false} WordsDropBack(s: string, i: nat, b: nat)
    requires i <= b <= |s|
    requires forall k :: b <= k < |s| ==> IsSpace(s[k])
    ensures Words(s[i..b]) == Words(s[i..])
    decreases b - i
  {
    if i == b {
      WordsSkip(s, b, |s|);
    } else {
      assert s[i..b] == [s[i]] + s[i + 1..b];
      assert s[i..] == [s[i]] + s[i + 1..];
      WordsCons(s[i], s[i + 1..b]);
      WordsCons(s[i], s[i + 1..]);
      WordsDropBack(s, i + 1, b);
      if i + 1 < b {
        assert s[i + 1..b][0] == s[i + 1] == s[i + 1..][0];
      }
    }
  }

  /** A slice with only whitespace around it has the words of the whole string. */
  lemma WordsOfSlice(s: string, a: nat, b: nat)
    requires SpacesOutside(s, a, b)
    ensures Words(s[a..b]) == Words(s)
  {
    WordsDropBack(s, a, b);
    WordsSkip(s, 0, a);
    assert s[0..] == s;
  }

  /** The non-whitespace characters of `s`, in order. */
  function NonSpace(s: string): string {
    if s == [] then [] else (if IsSpace(s[0]) then [] else [s[0]]) + NonSpace(s[1..])
  }

  lemma {:induction false} NonSpaceAppend(a: string, b: string)
    ensures NonSpace(a + b) == NonSpace(a) + NonSpace(b)
  {
    if a == [] {
      assert a + b == b;
    } else {
      assert (a + b)[0] == a[0];
      assert (a + b)[1..] == a[1..] + b;
      NonSpaceAppend(a[1..], b);
    }
  }

  lemma {:induction false} NonSpaceAllSpaces(s: string)
    requires forall i :: 0 <= i < |s| ==> IsSpace(s[i])
    ensures NonSpace(s) == []
  {
    if s != [] {
      NonSpaceAllSpaces(s[1..]);
    }
  }

  lemma {:induction false} NonSpaceSkip(s: string, i: nat, j: nat)
    requires i <= j <= |s|
    requires forall k :: i <= k < j ==> IsSpace(s[k])
    ensures NonSpace(s[i..]) == NonSpace(s[j..])
    decreases j - i
  {
    if i < j {
      assert s[i..][0] == s[i];
      assert s[i..][1..] == s[i + 1..];
      NonSpaceSkip(s, i + 1, j);
    }
  }

  /** A single-spaced string stays so behind a character that is not a space next to a space. */
  lemma SingleSpacedCons(c: char, rest: string)
    requires SingleSpaced(rest)
    requires IsSpace(c) ==> c == ' ' && (rest == [] || !IsSpace(rest[0]))
    ensures SingleSpaced([c] + rest)
  {
    var r := [c] + rest;
    forall i | 0 < i < |r| && r[i] == ' ' ensures r[i - 1] != ' ' {
      assert r[i] == rest[i - 1];
      if i > 1 {
        assert r[i - 1] == rest[i - 2];
      }
    }
  }

  /** `re.sub(r"\s+", " ", s)`: every maximal run of whitespace becomes one space. */
  function CollapseSpaces(s: string): (r: string)
    ensures SingleSpaced(r)
    ensures NonSpace(r) == NonSpace(s)
    ensures r == [] <==> s == []
    ensures r != [] ==> (IsSpace(r[0]) <==> IsSpace(s[0]))
    ensures r != [] ==> (IsSpace(r[|r| - 1]) <==> IsSpace(s[|s| - 1]))
    ensures Words(r) == Words(s)
    decreases |s|
  {
    if s == [] then []
    else if IsSpace(s[0]) then
      var j := SkipSpaces(s, 0);
      var t := s[j..];
      NonSpaceSkip(s, 0, j);
      WordsSkip(s, 0, j);
      assert s[0..] == s;
      var rest := CollapseSpaces(t);
      NonSpaceAppend(" ", rest);
      SingleSpacedCons(' ', rest);
      WordsCons(' ', rest);
      assert t != [] ==> t[|t| - 1] == s[|s| - 1];
      " " + rest
    else
      var rest := CollapseSpaces(s[1..]);
      assert s == [s[0]] + s[1..];
      NonSpaceAppend([s[0]], rest);
      SingleSpacedCons(s[0], rest);
      WordsCons(s[0], rest);
      WordsCons(s[0], s[1..]);
      assert s[1..] != [] ==> s[1..][|s[1..]| - 1] == s[|s| - 1];
      [s[0]] + rest
  }

  /** Whatever holds of every input character and of `' '` holds of every collapsed character. */
  lemma {:induction false} CollapseKeepsChars(s: string, f: char -> bool)
    requires f(' ') && forall i :: 0 <= i < |s| ==> f(s[i])
    ensures forall i :: 0 <= i < |CollapseSpaces(s)| ==> f(CollapseSpaces(s)[i])
    decreases |s|
  {
    if s != [] {
      if IsSpace(s[0]) {
        var j := SkipSpaces(s, 0);
        CollapseKeepsChars(s[j..], f);
        assert CollapseSpaces(s) == " " + CollapseSpaces(s[j..]);
      } else {
        CollapseKeepsChars(s[1..], f);
        assert CollapseSpaces(s) == [s[0]] + CollapseSpaces(s[1..]);
      }
    }
  }

  /** A slice of a single-spaced string is single-spaced. */
  lemma SliceSingleSpaced(s: string, a: nat, b: nat)
    requires a <= b <= |s| && SingleSpaced(s)
    ensures SingleSpaced(s[a..b])
  {
    var t := s[a..b];
    forall i | 0 < i < |t| && t[i] == ' ' ensures t[i - 1] != ' ' {
      assert t[i] == s[a + i] && t[i - 1] == s[a + i - 1];
    }
  }

  /**
   * `re.sub(r"\s+", " ", text.strip())` behind an `if not text: return ""` guard: the
   * `normalize_text` helper of the scrapers and the importer.
   */
  function NormalizeText(s: string): (r: string)
    ensures SingleSpaced(r) && Trimmed(r)
    ensures NonSpace(r) == NonSpace(s)
    ensures r == [] <==> forall i :: 0 <= i < |s| ==> IsSpace(s[i])
    ensures Words(r) == Words(s)
  {
    if s == "" then ""
    else
      StripNonSpace(s);
      var a := SkipSpaces(s, 0);
      WordsOfSlice(s, a, a + |Strip(s)|);
      CollapseSpaces(Strip(s))
  }

  /** Whitespace after the last word changes nothing. */
  lemma NormalizeTextTrailingSpace(x: string, c: char)
    requires IsSpace(c)
    ensures NormalizeText(x + [c]) == NormalizeText(x)
  {
    var y := x + [c];
    if x == [] {
      assert forall i :: 0 <= i < |y| ==> IsSpace(y[i]);
    } else {
      var r := Strip(x);
      var a := SkipSpaces(x, 0);
      var b := a + |r|;
      assert SpacesOutside(x, a, b) && r == x[a..b];
      assert SpacesOutside(y, a, b) by {
        forall k | b <= k < |y| ensures IsSpace(y[k]) {
          if k < |x| { assert y[k] == x[k]; }
        }
        forall k | 0 <= k < a ensures IsSpace(y[k]) {
          assert y[k] == x[k];
        }
      }
      assert y[a..b] == x[a..b];
      StripUnique(y, a, b);
    }
  }

  lemma StripNonSpace(s: string)
    ensures NonSpace(Strip(s)) == NonSpace(s)
    ensures Strip(s) == [] <==> forall i :: 0 <= i < |s| ==> IsSpace(s[i])
  {
    var a := SkipSpaces(s, 0);
    var b := BackSpaces(s, a, |s|);
    var t, post := s[a..b], s[b..];
    NonSpaceSkip(s, 0, a);
    NonSpaceSkip(s, b, |s|);
    assert s[0..] == s;
    SliceSplit(s, a, b);
    NonSpaceAppend(t, post);
    assert s[|s|..] == [];
    if t == [] {
      assert b == a;
      forall i | 0 <= i < |s| ensures IsSpace(s[i]) {
      }
    }
    if forall i :: 0 <= i < |s| ==> IsSpace(s[i]) {
      assert a == |s|;
    }
  }

  lemma SliceSplit(s: string, a: nat, b: nat)
    requires a <= b <= |s|
    ensures s[a..] == s[a..b] + s[b..]
  {
  }

  /** A single-spaced string that does not start with whitespace is left alone by the collapse. */
  lemma {:induction false} CollapseSpacesFixed(s: string)
    requires SingleSpaced(s) && (s == [] || !IsSpace(s[0]))
    ensures CollapseSpaces(s) == s
    decreases |s|
  {
    if s != [] {
      var u := s[1..];
      assert s == [s[0]] + u;
      assert CollapseSpaces(s) == [s[0]] + CollapseSpaces(u);
      SingleSpacedTail(s);
      if u != [] && IsSpace(u[0]) {
        var w := u[1..];
        SingleSpacedTail(u);
        assert u[0] == ' ';
        assert SkipSpaces(u, 0) == 1;
        assert CollapseSpaces(u) == " " + CollapseSpaces(w) by {
          assert u[1..] == w;
        }
        CollapseSpacesFixed(w);
        assert u == " " + w;
      } else {
        CollapseSpacesFixed(u);
      }
    }
  }

  lemma SingleSpacedTail(s: string)
    requires s != [] && SingleSpaced(s)
    ensures SingleSpaced(s[1..])
    ensures |s| >= 2 && s[0] == ' ' ==> !IsSpace(s[1])
  {
    var u := s[1..];
    forall i | 0 < i < |u| && u[i] == ' ' ensures u[i - 1] != ' ' { assert s[i + 1] == ' '; }
    if |s| >= 2 && s[0] == ' ' {
      assert s[1] != ' ';
    }
  }

  /** `normalize_text` is idempotent. */
  lemma NormalizeTextIdempotent(s: string)
    ensures NormalizeText(NormalizeText(s)) == NormalizeText(s)
  {
    var r := NormalizeText(s);
    if r != "" {
      assert SkipSpaces(r, 0) == 0;
      assert BackSpaces(r, 0, |r|) == |r|;
      assert Strip(r) == r;
      CollapseSpacesFixed(r);
    }
  }

  /**
   * `s.split()[0]` for a string `s` that does not start with whitespace and is non-empty,
   * and `""` for the empty string: the characters up to the first whitespace.
   */
  function FirstWord(s: string): (r: string)
    ensures |r| <= |s| && r == s[..|r|]
    ensures forall i :: 0 <= i < |r| ==> !IsSpace(s[i])
    ensures |r| == |s| || IsSpace(s[|r|])
  {
    if s == [] || IsSpace(s[0]) then [] else [s[0]] + FirstWord(s[1..])
  }

  // ---------------------------------------------------------------------------
  // Substrings
  // ---------------------------------------------------------------------------

  predicate OccursAt(s: string, k: string, i: nat) {
    i + |k| <= |s| && s[i..i + |k|] == k
  }

  /** `k` occurs at `i` and at no index before `i`. */
  predicate FirstAt(s: string, k: string, i: nat) {
    OccursAt(s, k, i) && forall j: nat :: j < i ==> !OccursAt(s, k, j)
  }

  /** Python's `k in s`. */
  predicate Contains(s: string, k: string) {
    exists i: nat | i <= |s| :: OccursAt(s, k, i)
  }

  function IndexFrom(s: string, k: string, i: nat): (r: Option<nat>)
    requires i <= |s|
    ensures r.Some? ==> (i <= r.value && OccursAt(s, k, r.value)
                         && forall j: nat :: i <= j < r.value ==> !OccursAt(s, k, j))
    ensures r.None? ==> forall j: nat :: i <= j ==> !OccursAt(s, k, j)
    decreases |s| - i
  {
    if OccursAt(s, k, i) then Some(i)
    else if i == |s| then None
    else IndexFrom(s, k, i + 1)
  }

  /** `s.find(k)`: the first index at which `k` occurs in `s`, if any. */
  function IndexOf(s: string, k: string): (r: Option<nat>)
    ensures r.Some? <==> Contains(s, k)
    ensures r.Some? ==> OccursAt(s, k, r.value) && forall j: nat :: j < r.value ==> !OccursAt(s, k, j)
  {
    IndexFrom(s, k, 0)
  }

  /**
   * `re.search` reduced to its core: the leftmost position in `i..n` at which `at` reports a
   * match, with what the match captured.
   */
  function Leftmost<T>(n: nat, i: nat, at: nat -> Option<T>): (r: Option<(nat, T)>)
    requires i <= n
    ensures r.Some? ==> i <= r.value.0 <= n && at(r.value.0) == Some(r.value.1)
    ensures r.Some? ==> forall j :: i <= j < r.value.0 ==> at(j).None?
    ensures r.None? ==> forall j :: i <= j <= n ==> at(j).None?
    decreases n - i
  {
    match at(i)
    case Some(g) => Some((i, g))
    case None => if i == n then None else Leftmost(n, i + 1, at)
  }

  /** The match `Leftmost` returns, given by its position. */
  lemma {:induction false} LeftmostFinds<T>(n: nat, i: nat, at: nat -> Option<T>, k: nat)
    requires i <= k <= n && at(k).Some?
    requires forall j :: i <= j < k ==> at(j).None?
    ensures Leftmost(n, i, at) == Some((k, at(k).value))
    decreases k - i
  {
    if i < k {
      LeftmostFinds(n, i + 1, at, k);
    }
  }

  /** `s.replace(k, '', 1)`: `s` with the first occurrence of `k` deleted. */
  function RemoveFirst(s: string, k: string): (r: string)
    ensures !Contains(s, k) ==> r == s
    ensures Contains(s, k) ==> (|r| == |s| - |k|
                                && exists i: nat :: FirstAt(s, k, i) && r == s[..i] + s[i + |k|..])
  {
    match IndexOf(s, k)
    case None => s
    case Some(i) => s[..i] + s[i + |k|..]
  }

  /** `s.split(sep)[0]`: the part of `s` before the first occurrence of `sep`. */
  function Before(s: string, sep: string): (r: string)
    ensures |r| <= |s| && r == s[..|r|]
    ensures !Contains(s, sep) ==> r == s
    ensures Contains(s, sep) ==> OccursAt(s, sep, |r|) && forall j: nat :: j < |r| ==> !OccursAt(s, sep, j)
  {
    match IndexOf(s, sep)
    case None => s
    case Some(i) => s[..i]
  }

  /** `s.startswith(p)`. */
  predicate StartsWith(s: string, p: string) {
    |p| <= |s| && s[..|p|] == p
  }

  /** `s.replace(c, '')` for a single character. */
  function Delete(s: string, c: char): (r: string)
    ensures forall i :: 0 <= i < |r| ==> r[i] != c
    ensures |r| + CountChar(s, c) == |s|
    ensures forall x :: x != c ==> CountChar(r, x) == CountChar(s, x)
    ensures (forall i :: 0 <= i < |s| ==> s[i] != c) ==> r == s
  {
    if s == [] then []
    else
      var rest := Delete(s[1..], c);
      if s[0] == c then rest
      else
        assert ([s[0]] + rest)[1..] == rest;
        assert s == [s[0]] + s[1..];
        [s[0]] + rest
  }

  /** Every character of `Delete(s, c)` satisfies `f` when every character of `s` does. */
  lemma {:induction false} DeleteKeepsChars(s: string, c: char, f: char -> bool)
    requires forall i :: 0 <= i < |s| ==> f(s[i])
    ensures forall i :: 0 <= i < |Delete(s, c)| ==> f(Delete(s, c)[i])
  {
    if s != [] {
      DeleteKeepsChars(s[1..], c, f);
    }
  }

  /** Deleting a character distributes over concatenation. */
  lemma {:induction false} DeleteAppend(a: string, b: string, c: char)
    ensures Delete(a + b, c) == Delete(a, c) + Delete(b, c)
  {
    if a == [] {
      assert a + b == b;
    } else {
      assert (a + b)[1..] == a[1..] + b;
      DeleteAppend(a[1..], b, c);
    }
  }

  /** The only whitespace of `s` is `' '` (as `normalize_text` leaves it). */
  predicate OnlyBlanks(s: string) {
    forall k :: 0 <= k < |s| && IsSpace(s[k]) ==> s[k] == ' '
  }

  lemma OnlyBlanksInSlice(s: string, a: nat, b: nat)
    requires a <= b <= |s| && OnlyBlanks(s)
    ensures OnlyBlanks(s[a..b])
  {
    forall k | 0 <= k < b - a && IsSpace(s[a..b][k]) ensures s[a..b][k] == ' ' {
      assert s[a..b][k] == s[a + k];
    }
  }

  /** Once its `' '` are deleted, a lower-cased text whose only whitespace is `' '` has none left. */
  lemma OnlyBlanksDeleted(x: string)
    requires OnlyBlanks(x)
    ensures forall k :: 0 <= k < |Delete(Lower(x), ' ')| ==> !IsSpace(Delete(Lower(x), ' ')[k])
  {
    var token := Lower(x);
    assert forall k :: 0 <= k < |token| ==> !IsSpace(token[k]) || token[k] == ' ' by {
      forall k | 0 <= k < |token| ensures !IsSpace(token[k]) || token[k] == ' ' {
        assert token[k] == LowerChar(x[k]);
      }
    }
    DeleteKeepsChars(token, ' ', c => !IsSpace(c) || c == ' ');
  }

  /** Lower-casing a text without upper-case letters changes nothing. */
  lemma LowerFixed(s: string)
    requires forall k :: 0 <= k < |s| ==> !IsUpper(s[k])
    ensures Lower(s) == s
  {
  }

  /** Python slicing `s[:n]`. */
  function Truncate(s: string, n: nat): (r: string)
    ensures |r| <= n && |r| <= |s|
    ensures |s| <= n ==> r == s
    ensures |s| > n ==> |r| == n
    ensures r == s[..|r|]
  {
    if |s| <= n then s else s[..n]
  }

  // ---------------------------------------------------------------------------
  // Numbers in text
  // ---------------------------------------------------------------------------

  predicate DigitsAndDots(s: string) {
    forall i :: 0 <= i < |s| ==> IsDigit(s[i]) || s[i] == '.'
  }

  predicate AllDigits(s: string) {
    forall i :: 0 <= i < |s| ==> IsDigit(s[i])
  }

  /** `re.sub(r"[^\d.]", "", s)`: keep only digits and dots. */
  function KeepDigitsAndDots(s: string): (r: string)
    ensures DigitsAndDots(r)
    ensures |r| <= |s|
    ensures DigitsAndDots(s) ==> r == s
  {
    if s == [] then []
    else (if IsDigit(s[0]) || s[0] == '.' then [s[0]] else []) + KeepDigitsAndDots(s[1..])
  }

  /** Filtering distributes over concatenation. */
  lemma {:induction false} KeepDigitsAndDotsAppend(a: string, b: string)
    ensures KeepDigitsAndDots(a + b) == KeepDigitsAndDots(a) + KeepDigitsAndDots(b)
  {
    if a == [] {
      assert a + b == b;
    } else {
      var h := if IsDigit(a[0]) || a[0] == '.' then [a[0]] else [];
      assert (a + b)[0] == a[0];
      assert (a + b)[1..] == a[1..] + b;
      assert KeepDigitsAndDots(a + b) == h + KeepDigitsAndDots(a[1..] + b);
      KeepDigitsAndDotsAppend(a[1..], b);
      AppendAssoc(h, KeepDigitsAndDots(a[1..]), KeepDigitsAndDots(b));
    }
  }

  /** The filter keeps a digit or a dot and drops every other character, wherever it stands. */
  lemma KeepDigitsAndDotsAt(a: string, c: char, b: string)
    ensures KeepDigitsAndDots(a + [c] + b) ==
      KeepDigitsAndDots(a) + (if IsDigit(c) || c == '.' then [c] else []) + KeepDigitsAndDots(b)
  {
    KeepDigitsAndDotsAppend(a + [c], b);
    KeepDigitsAndDotsAppend(a, [c]);
    assert [c][1..] == [];
  }

  /** The value of a string of decimal digits, most significant first. */
  function DigitsValue(s: string): nat
    requires AllDigits(s)
  {
    if s == [] then 0 else 10 * DigitsValue(s[..|s| - 1]) + DigitValue(s[|s| - 1])
  }

  function Pow10(n: nat): (p: nat)
    ensures p >= 1
  {
    if n == 0 then 1 else 10 * Pow10(n - 1)
  }

  function CountChar(s: string, c: char): nat {
    if s == [] then 0 else (if s[0] == c then 1 else 0) + CountChar(s[1..], c)
  }

  predicate HasDigit(s: string) {
    exists i :: 0 <= i < |s| && IsDigit(s[i])
  }

  lemma {:induction false} CountCharZero(s: string, c: char)
    ensures CountChar(s, c) == 0 <==> forall i :: 0 <= i < |s| ==> s[i] != c
  {
    if s != [] {
      CountCharZero(s[1..], c);
      assert forall i :: 1 <= i < |s| ==> s[i] == s[1..][i - 1];
    }
  }

  lemma {:induction false} CountCharAppend(a: string, b: string, c: char)
    ensures CountChar(a + b, c) == CountChar(a, c) + CountChar(b, c)
  {
    if a == [] {
      assert a + b == b;
    } else {
      assert (a + b)[0] == a[0];
      assert (a + b)[1..] == a[1..] + b;
      CountCharAppend(a[1..], b, c);
    }
  }

  /** Digits written after others scale the value of the others by a power of ten. */
  lemma {:induction false} DigitsValueAppend(a: string, b: string)
    requires AllDigits(a) && AllDigits(b)
    ensures AllDigits(a + b)
    ensures DigitsValue(a + b) == DigitsValue(a) * Pow10(|b|) + DigitsValue(b)
    decreases |b|
  {
    var ab := a + b;
    assert AllDigits(ab) by {
      forall i | 0 <= i < |ab| ensures IsDigit(ab[i]) {
        if i < |a| { assert ab[i] == a[i]; } else { assert ab[i] == b[i - |a|]; }
      }
    }
    if b == [] {
      assert ab == a;
    } else {
      var b' := b[..|b| - 1];
      assert ab[..|ab| - 1] == a + b';
      assert ab[|ab| - 1] == b[|b| - 1];
      DigitsValueAppend(a, b');
      ShiftDigit(DigitsValue(a), Pow10(|b'|), DigitsValue(b'), DigitValue(b[|b| - 1]));
    }
  }

  lemma ShiftDigit(x: int, p: int, y: int, d: int)
    ensures 10 * (x * p + y) + d == x * (10 * p) + (10 * y + d)
  {
  }

  /**
   * The value of `float()` on a digits-and-dots string with at most one dot, split at the
   * dot: the digits on both sides, read as one integer, scaled down by one power of ten per
   * digit after the dot ("12.5" is 125 / 10).
   */
  function DecimalValue(ip: string, fp: string): (v: real)
    requires AllDigits(ip) && AllDigits(fp)
    ensures v >= 0.0
    ensures AllDigits(ip + fp) && v == DigitsValue(ip + fp) as real / Pow10(|fp|) as real
  {
    DigitsValueAppend(ip, fp);
    ScaleDown(DigitsValue(ip), DigitsValue(fp), Pow10(|fp|));

    DigitsValue(ip) as real + DigitsValue(fp) as real / Pow10(|fp|) as real
  }

  lemma ScaleDown(x: int, y: int, p: int)
    requires p > 0
    ensures (x * p + y) as real / p as real == x as real + y as real / p as real
  {
    assert (x * p) as real == x as real * p as real;
  }

  lemma NoDotBefore(s: string, p: nat)
    requires forall j: nat :: j < p ==> !OccursAt(s, ".", j)
    requires p <= |s|
    ensures forall i :: 0 <= i < p ==> s[i] != '.'
  {
    forall i | 0 <= i < p ensures s[i] != '.' { assert !OccursAt(s, ".", i); }
  }

  lemma HasDigitSplit(s: string, p: nat)
    requires p < |s| && s[p] == '.'
    ensures HasDigit(s) <==> HasDigit(s[..p]) || HasDigit(s[p + 1..])
  {
    var ip, fp := s[..p], s[p + 1..];
    if HasDigit(s) {
      var i :| 0 <= i < |s| && IsDigit(s[i]);
      if i < p { assert IsDigit(ip[i]); } else { assert IsDigit(fp[i - p - 1]); }
    }
    if HasDigit(ip) { var i :| 0 <= i < |ip| && IsDigit(ip[i]); assert IsDigit(s[i]); }
    if HasDigit(fp) { var i :| 0 <= i < |fp| && IsDigit(fp[i]); assert IsDigit(s[p + 1 + i]); }
  }

  lemma CountDotSplit(s: string, p: nat)
    requires p < |s| && s[p] == '.'
    requires forall i :: 0 <= i < p ==> s[i] != '.'
    ensures CountChar(s, '.') == 1 + CountChar(s[p + 1..], '.')
  {
    var ip, fp := s[..p], s[p + 1..];
    assert s == ip + "." + fp;
    CountCharAppend(ip + ".", fp, '.');
    CountCharAppend(ip, ".", '.');
    CountCharZero(ip, '.');
  }

  lemma DigitsOnlyOrEmpty(s: string)
    requires DigitsAndDots(s) && forall i :: 0 <= i < |s| ==> s[i] != '.'
    ensures AllDigits(s)
    ensures s != [] <==> HasDigit(s)
  {
    if s != [] { assert IsDigit(s[0]); }
  }

  /**
   * Python's `float()` applied to a string of digits and dots: it accepts `"12"`, `"12."`,
   * `".5"` and `"12.5"`, and raises `ValueError` (here `None`) on `""`, `"."` and any string
   * with two or more dots.
   */
  function ParseDecimal(s: string): (r: Option<real>)
    requires DigitsAndDots(s)
    ensures r.Some? <==> HasDigit(s) && CountChar(s, '.') <= 1
    ensures r.Some? ==> r.value >= 0.0
    ensures AllDigits(s) && s != [] ==> r == Some(DigitsValue(s) as real)
  {
    match IndexOf(s, ".")
    case None =>
      NoDotBefore(s, |s|);
      CountCharZero(s, '.');
      DigitsOnlyOrEmpty(s);
      if s == [] then None else Some(DigitsValue(s) as real)
    case Some(p) =>
      NoDotBefore(s, p);
      HasDigitSplit(s, p);
      CountDotSplit(s, p);
      var ip, fp := s[..p], s[p + 1..];
      DigitsOnlyOrEmpty(ip);
      CountCharZero(fp, '.');
      assert !AllDigits(s) by { assert !IsDigit(s[p]); }
      if CountChar(fp, '.') > 0 || (ip == [] && fp == []) then None
      else
        DigitsOnlyOrEmpty(fp);
        Some(DecimalValue(ip, fp))
  }

  /** `float()` on digits, a dot and digits: the decimal value of the two digit strings. */
  lemma ParseDecimalAt(ip: string, fp: string)
    requires AllDigits(ip) && AllDigits(fp) && ip + fp != []
    ensures DigitsAndDots(ip + "." + fp)
    ensures ParseDecimal(ip + "." + fp) == Some(DecimalValue(ip, fp))
  {
    var s := ip + "." + fp;
    JoinedAt(ip, '.', fp);
    assert OccursAt(s, ".", |ip|);
    forall j: nat | j < |ip| ensures !OccursAt(s, ".", j) {
      assert s[j] == ip[j];
    }
    assert IndexOf(s, ".") == Some(|ip|);
    CountCharZero(fp, '.');
    assert DigitsAndDots(s) by {
      forall i | 0 <= i < |s| ensures IsDigit(s[i]) || s[i] == '.' {
        if i < |ip| { assert s[i] == ip[i]; } else if i > |ip| { assert s[i] == fp[i - |ip| - 1]; }
      }
    }
  }

  /** `float("12.5")` is 12.5. */
  lemma ParseDecimalExample()
    ensures ParseDecimal("12.5") == Some(12.5)
  {
    ParseDecimalAt("12", "5");
    assert "12" + "." + "5" == "12.5";
    DecimalExampleValue();
  }

  lemma DecimalExampleValue()
    ensures DecimalValue("12", "5") == 12.5
  {
    assert DigitsValue("12") == 12 by {
      assert "12"[..1] == "1" && "1"[..0] == "";
    }
    assert DigitsValue("5") == 5 by {
      assert "5"[..0] == "";
    }
  }

  /**
   * `round(x, 2)` on an exact real, rounding halves up. Python rounds the nearest binary
   * double half-to-even instead; the model only keeps the two-decimal error bound.
   */
  function Round2(x: real): (r: real)
    ensures x - 0.005 < r <= x + 0.005
    ensures x >= 0.0 ==> r >= 0.0
  {
    (x * 100.0 + 0.5).Floor as real / 100.0
  }
}
