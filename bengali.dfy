/**
 * `add_bengali_names.py`: Bengali names for the search index. A name is looked up in a
 * hand-made table (exactly, then by the first table key it contains); failing that it is
 * transliterated letter by letter, two-letter combinations first.
 */
module Bengali {
  import opened Wrappers
  import opened Text

  /** A Python dict literal as its entries in insertion order. */
  type Table = seq<(string, string)>

  /** The value of the first entry at or after `i` whose key is `k`. */
  function LookupFrom(t: Table, k: string, i: nat): Option<string>
    decreases |t| - i
  {
    if i >= |t| then None
    else if t[i].0 == k then Some(t[i].1)
    else LookupFrom(t, k, i + 1)
  }

  /** `k in t` and `t[k]`: the value of the first entry whose key is `k`, the dict lookup when keys are distinct. */
  function Lookup(t: Table, k: string): Option<string> {
    LookupFrom(t, k, 0)
  }

  predicate DistinctKeys(t: Table) {
    forall i, j :: 0 <= i < j < |t| ==> t[i].0 != t[j].0
  }

  /** Every key is made of lower-case ASCII letters. */
  predicate LetterKeys(t: Table) {
    forall i :: 0 <= i < |t| ==> forall j :: 0 <= j < |t[i].0| ==> IsLowerLetter(t[i].0[j])
  }

  lemma {:induction false} LookupFromMeaning(t: Table, k: string, i: nat)
    ensures LookupFrom(t, k, i).Some? <==> exists m :: i <= m < |t| && t[m].0 == k
    ensures LookupFrom(t, k, i).Some? ==>
      exists m :: i <= m < |t| && t[m] == (k, LookupFrom(t, k, i).value) && forall j :: i <= j < m ==> t[j].0 != k
    decreases |t| - i
  {
    if i < |t| && t[i].0 != k {
      LookupFromMeaning(t, k, i + 1);
    }
  }

  /**
   * Lookup finds a value exactly when some entry has the key; the value is that of the first
   * such entry, which with distinct keys is the only one.
   */
  lemma LookupMeaning(t: Table, k: string)
    ensures Lookup(t, k).Some? <==> exists m :: 0 <= m < |t| && t[m].0 == k
    ensures Lookup(t, k).Some? ==>
      exists m :: 0 <= m < |t| && t[m] == (k, Lookup(t, k).value) && forall j :: 0 <= j < m ==> t[j].0 != k
    ensures DistinctKeys(t) ==> forall m :: 0 <= m < |t| && t[m].0 == k ==> Lookup(t, k) == Some(t[m].1)
  {
    LookupFromMeaning(t, k, 0);
  }

  /** A string holding a character that is not a lower-case letter is not a key of a table of letter keys. */
  lemma {:induction false} LookupNonLetter(t: Table, k: string, j: nat)
    requires LetterKeys(t)
    requires j < |k| && !IsLowerLetter(k[j])
    ensures Lookup(t, k) == None
  {
    LookupFromMeaning(t, k, 0);
    forall m | 0 <= m < |t| ensures t[m].0 != k {
      if j < |t[m].0| {
        assert IsLowerLetter(t[m].0[j]);
      }
    }
  }

  /** The entry at `m` answers the lookup when no earlier entry has its key. */
  lemma {:induction false} LookupAt(t: Table, k: string, m: nat, i: nat)
    requires i <= m < |t| && t[m].0 == k
    requires forall j :: i <= j < m ==> t[j].0 != k
    ensures LookupFrom(t, k, i) == Some(t[m].1)
    decreases m - i
  {
    if i < m {
      LookupAt(t, k, m, i + 1);
    }
  }

  lemma LookupAbsent(t: Table, k: string)
    requires forall m :: 0 <= m < |t| ==> t[m].0 != k
    ensures Lookup(t, k) == None
  {
    LookupFromMeaning(t, k, 0);
  }

  /** A table whose values are all non-empty never yields the empty string. */
  lemma LookupNonEmpty(t: Table, k: string)
    requires forall i :: 0 <= i < |t| ==> t[i].1 != ""
    ensures Lookup(t, k).Some? ==> Lookup(t, k).value != ""
  {
    LookupFromMeaning(t, k, 0);
  }

  // ---------------------------------------------------------------------------
  // Phonetic transliteration
  // ---------------------------------------------------------------------------

  const ConsonantMap: Table := [
    ("b", "ব"), ("c", "স"), ("d", "ড"), ("f", "ফ"), ("g", "গ"), ("h", "হ"),
    ("j", "জ"), ("k", "ক"), ("l", "ল"), ("m", "ম"), ("n", "ন"), ("p", "প"),
    ("q", "ক"), ("r", "র"), ("s", "স"), ("t", "ট"), ("v", "ভ"), ("w", "ও"),
    ("x", "ক্স"), ("y", "ই"), ("z", "জ"), ("ch", "চ"), ("sh", "শ"), ("th", "থ"),
    ("ph", "ফ"), ("gh", "ঘ"), ("dh", "ধ"), ("bh", "ভ"), ("kh", "খ"), ("ng", "ং"),
    ("ck", "ক")
  ]

  const VowelMap: Table := [
    ("a", "া"), ("e", "ে"), ("i", "ি"), ("o", "ো"), ("u", "ু"), ("aa", "া"),
    ("ee", "ী"), ("oo", "ু"), ("ai", "াই"), ("ou", "াউ"), ("au", "ো"), ("ei", "েই"),
    ("oi", "য়")
  ]

  const BengaliDigits: string := "০১২৩৪৫৬৭৮৯"

  /** The Bengali text of one character: consonant, vowel, Bengali digit, or the character itself. */
  function SingleChar(c: char): string {
    match Lookup(ConsonantMap, [c])
    case Some(b) => b
    case None =>
      match Lookup(VowelMap, [c])
      case Some(b) => b
      case None => if IsDigit(c) then [BengaliDigits[DigitValue(c)]] else [c]
  }

  /**
   * The text produced at position `i` and the number of characters it consumes: a two-character
   * consonant, then a two-character vowel, then the single character.
   */
  function Step(s: string, i: nat): (r: (string, nat))
    requires i < |s|
    ensures 1 <= r.1 <= 2 && i + r.1 <= |s|
  {
    var pair := if i + 1 < |s| then s[i..i + 2] else "";
    if i + 1 < |s| && Lookup(ConsonantMap, pair).Some? then (Lookup(ConsonantMap, pair).value, 2)
    else if i + 1 < |s| && Lookup(VowelMap, pair).Some? then (Lookup(VowelMap, pair).value, 2)
    else (SingleChar(s[i]), 1)
  }

  /** The transliteration of `s` from position `i` on. */
  function TranslitFrom(s: string, i: nat): string
    requires i <= |s|
    decreases |s| - i
  {
    if i == |s| then ""
    else Step(s, i).0 + TranslitFrom(s, i + Step(s, i).1)
  }

  /** What `transliterate_phonetic` returns: the scan over the lower-cased, stripped name. */
  function Transliterated(name: string): string {
    TranslitFrom(Strip(Lower(name)), 0)
  }

  /** Appending the piece of one step keeps the output so far plus the rest equal to the whole. */
  lemma StepInvariant(s: string, i: nat, result: string, piece: string, n: nat)
    requires i < |s| && TranslitFrom(s, 0) == result + TranslitFrom(s, i)
    requires Step(s, i) == (piece, n)
    ensures i + n <= |s| && TranslitFrom(s, 0) == (result + piece) + TranslitFrom(s, i + n)
  {
  }

  /**
   * One pass of the loop of `transliterate_phonetic` at position `i`: the two-character
   * consonant, else the two-character vowel, else the single character, and how far it moves.
   */
  method NextPiece(s: string, i: nat) returns (piece: string, n: nat)
    requires i < |s|
    ensures Step(s, i) == (piece, n)
  {
    if i + 1 < |s| {
      var twoChar := s[i..i + 2];
      var consonant := Lookup(ConsonantMap, twoChar);
      if consonant.Some? {
        return consonant.value, 2;
      }
      var vowel := Lookup(VowelMap, twoChar);
      if vowel.Some? {
        return vowel.value, 2;
      }
    }
    var c := s[i];
    if Lookup(ConsonantMap, [c]).Some? {
      piece := Lookup(ConsonantMap, [c]).value;
    } else if Lookup(VowelMap, [c]).Some? {
      piece := Lookup(VowelMap, [c]).value;
    } else if IsDigit(c) {
      piece := [BengaliDigits[DigitValue(c)]];
    } else {
      piece := [c];
    }
    n := 1;
  }

  /** The loop of `transliterate_phonetic`: the left-to-right scan, appending one piece per step. */
  method Scan(s: string) returns (r: string)
    ensures r == TranslitFrom(s, 0)
  {
    var result := "";
    var i := 0;
    while i < |s|
      invariant 0 <= i <= |s|
      invariant TranslitFrom(s, 0) == result + TranslitFrom(s, i)
      decreases |s| - i
    {
      var piece, n := NextPiece(s, i);
      StepInvariant(s, i, result, piece, n);
      result := result + piece;
      i := i + n;
    }
    assert TranslitFrom(s, i) == "";
    r := result;
  }

  /** `transliterate_phonetic`: the scan over the lower-cased, stripped name. */
  method TransliteratePhonetic(name: string) returns (r: string)
    ensures r == Transliterated(name)
  {
    r := Scan(Strip(Lower(name)));
  }

  // ---------------------------------------------------------------------------
  // Properties of the scan
  // ---------------------------------------------------------------------------

  /** The image of a character that is not a letter: a Bengali digit for a digit, itself otherwise. */
  function NonLetterImage(c: char): char {
    if IsDigit(c) then BengaliDigits[DigitValue(c)] else c
  }

  lemma MapsHaveLetterKeys()
    ensures LetterKeys(ConsonantMap) && LetterKeys(VowelMap)
  {
  }

  /** A character that is not a letter is never a table key, alone or in a pair. */
  lemma NonLetterStep(s: string, i: nat)
    requires i < |s| && !IsLetter(s[i])
    ensures Step(s, i) == ([NonLetterImage(s[i])], 1)
  {
    MapsHaveLetterKeys();
    if i + 1 < |s| {
      LookupNonLetter(ConsonantMap, s[i..i + 2], 0);
      LookupNonLetter(VowelMap, s[i..i + 2], 0);
    }
    LookupNonLetter(ConsonantMap, [s[i]], 0);
    LookupNonLetter(VowelMap, [s[i]], 0);
  }

  /** The character-by-character image of a string without letters. */
  function NonLetterImages(s: string): string {
    if s == [] then [] else [NonLetterImage(s[0])] + NonLetterImages(s[1..])
  }

  /**
   * Without letters the scan goes one character at a time: digits become Bengali digits and
   * every other character (space, hyphen, punctuation) is copied unchanged.
   */
  lemma {:induction false} NoLettersCharByChar(s: string, i: nat)
    requires i <= |s|
    requires forall k :: 0 <= k < |s| ==> !IsLetter(s[k])
    ensures TranslitFrom(s, i) == NonLetterImages(s[i..])
    decreases |s| - i
  {
    if i < |s| {
      NonLetterStep(s, i);
      NoLettersCharByChar(s, i + 1);
      assert s[i..][1..] == s[i + 1..];
    }
  }

  /** Every step produces some text, so the output is empty exactly when the stripped input is. */
  lemma {:induction false} TranslitFromEmpty(s: string, i: nat)
    requires i <= |s|
    ensures TranslitFrom(s, i) == "" <==> i == |s|
  {
    if i < |s| {
      PiecesNonEmpty(s, i);
    }
  }

  lemma PiecesNonEmpty(s: string, i: nat)
    requires i < |s|
    ensures Step(s, i).0 != ""
  {
    LookupNonEmpty(ConsonantMap, if i + 1 < |s| then s[i..i + 2] else "");
    LookupNonEmpty(VowelMap, if i + 1 < |s| then s[i..i + 2] else "");
    LookupNonEmpty(ConsonantMap, [s[i]]);
    LookupNonEmpty(VowelMap, [s[i]]);
  }

  /** `transliterate_phonetic` returns the empty string exactly for a blank name. */
  lemma TransliteratedEmpty(name: string)
    ensures Transliterated(name) == "" <==> Strip(Lower(name)) == ""
  {
    TranslitFromEmpty(Strip(Lower(name)), 0);
  }

  /** A two-letter consonant wins over its two letters (`c`, `h` alone would give "সহ"). */
  lemma PairBeforeLetters()
    ensures Transliterated("CH") == "চ"
  {
    var s := "ch";
    assert Lower("CH") == s;
    assert Strip(s) == s by {
      assert SkipSpaces(s, 0) == 0;
      assert BackSpaces(s, 0, |s|) == |s|;
    }
    assert s[0..2] == s;
    LookupAt(ConsonantMap, s, 21, 0);
    assert Step(s, 0) == ("চ", 2);
    assert TranslitFrom(s, 2) == "";
  }

  // ---------------------------------------------------------------------------
  // Name lookup
  // ---------------------------------------------------------------------------

  /**
   * `BRAND_NAME_MAPPINGS`, in its order, held in parts of twelve entries so that facts about the
   * table can be established part by part.
   */
  const BrandNameMappings: Table := BrandPart0 + BrandPart1 + BrandPart2 + BrandPart3 + BrandPart4 + BrandPart5 + BrandPart6

  const BrandPart0: Table := [
    ("napa", "নাপা"), ("napa extra", "নাপা এক্সট্রা"), ("ace", "এস"), ("ace plus", "এস প্লাস"),
    ("seclo", "সেক্লো"), ("maxpro", "ম্যাক্সপ্রো"), ("sergel", "সার্জেল"), ("losectil", "লসেক্টিল"),
    ("amlodip", "অ্যামলোডিপ"), ("neotack", "নিওট্যাক"), ("antacid", "অ্যান্টাসিড"), ("axodin", "অ্যাক্সোডিন")
  ]
  const BrandPart1: Table := [
    ("azith", "এজিথ"), ("azithrocin", "এজিথ্রোসিন"), ("azithromycin", "এজিথ্রোমাইসিন"), ("atova", "অ্যাটোভা"),
    ("amodis", "অ্যামোডিস"), ("amoxicillin", "অ্যামোক্সিসিলিন"), ("ciprocin", "সিপ্রোসিন"), ("ciprofloxacin", "সিপ্রোফ্লক্সাসিন"),
    ("cefixime", "সেফিক্সিম"), ("cef-3", "সেফ-৩"), ("ceftriaxone", "সেফট্রায়াক্সোন"), ("domperidone", "ডমপেরিডন")
  ]
  const BrandPart2: Table := [
    ("don-a", "ডন-এ"), ("eso", "ইসো"), ("esoral", "ইসোরাল"), ("esomeprazole", "ইসোমেপ্রাজল"),
    ("fexo", "ফেক্সো"), ("fexofenadine", "ফেক্সোফেনাডিন"), ("filmet", "ফিলমেট"), ("fluclox", "ফ্লুক্লক্স"),
    ("flucloxacillin", "ফ্লুক্লক্সাসিলিন"), ("gastoral", "গ্যাস্টোরাল"), ("histacin", "হিস্টাসিন"), ("histafree", "হিস্টাফ্রি")
  ]
  const BrandPart3: Table := [
    ("ibuprofen", "আইবুপ্রোফেন"), ("indever", "ইন্ডেভার"), ("levofloxacin", "লেভোফ্লক্সাসিন"), ("losartan", "লসার্টান"),
    ("loperin", "লোপেরিন"), ("loperamide", "লোপেরামাইড"), ("losium", "লোসিয়াম"), ("mebex", "মেবেক্স"),
    ("mebendazole", "মেবেন্ডাজল"), ("metacin", "মেটাসিন"), ("metformin", "মেটফরমিন"), ("metronidazole", "মেট্রোনিডাজল")
  ]
  const BrandPart4: Table := [
    ("montas", "মন্টাস"), ("montelukast", "মন্টেলুকাস্ট"), ("naxen", "ন্যাক্সেন"), ("naproxen", "ন্যাপ্রোক্সেন"),
    ("neuro-b", "নিউরো-বি"), ("omeprazole", "ওমেপ্রাজল"), ("omenix", "ওমেনিক্স"), ("oralex", "ওরালেক্স"),
    ("orsalit", "ওরস্যালিট"), ("pantonix", "প্যান্টোনিক্স"), ("pantoprazole", "প্যান্টোপ্রাজল"), ("paracetamol", "প্যারাসিটামল")
  ]
  const BrandPart5: Table := [
    ("pepto", "পেপ্টো"), ("priton", "প্রাইটন"), ("ranitidine", "রেনিটিডিন"), ("renova", "রেনোভা"),
    ("savlon", "স্যাভলন"), ("sinacod", "সিনাকড"), ("tifen", "টাইফেন"), ("tycil", "টাইসিল"),
    ("tofen", "টোফেন"), ("tramadol", "ট্রামাডল"), ("vitamin", "ভিটামিন"), ("vit-b", "ভিট-বি")
  ]
  const BrandPart6: Table := [
    ("xpa", "এক্সপিএ"), ("zimax", "জিম্যাক্স"), ("zithrin", "জিথ্রিন")
  ]

  /** `GENERIC_NAME_MAPPINGS`, in its order, in parts of thirteen entries. */
  const GenericNameMappings: Table := GenericPart0 + GenericPart1 + GenericPart2 + GenericPart3

  const GenericPart0: Table := [
    ("paracetamol", "প্যারাসিটামল"), ("omeprazole", "ওমেপ্রাজল"), ("esomeprazole", "ইসোমেপ্রাজল"), ("pantoprazole", "প্যান্টোপ্রাজল"),
    ("ranitidine", "রেনিটিডিন"), ("famotidine", "ফ্যামোটিডিন"), ("amoxicillin", "অ্যামোক্সিসিলিন"), ("azithromycin", "এজিথ্রোমাইসিন"),
    ("ciprofloxacin", "সিপ্রোফ্লক্সাসিন"), ("levofloxacin", "লেভোফ্লক্সাসিন"), ("cefixime", "সেফিক্সিম"), ("ceftriaxone", "সেফট্রায়াক্সোন"),
    ("metronidazole", "মেট্রোনিডাজল")
  ]
  const GenericPart1: Table := [
    ("flucloxacillin", "ফ্লুক্লক্সাসিলিন"), ("doxycycline", "ডক্সিসাইক্লিন"), ("ibuprofen", "আইবুপ্রোফেন"), ("naproxen", "ন্যাপ্রোক্সেন"),
    ("diclofenac", "ডাইক্লোফেনাক"), ("ketoprofen", "কিটোপ্রোফেন"), ("indomethacin", "ইন্ডোমেথাসিন"), ("amlodipine", "অ্যামলোডিপিন"),
    ("losartan", "লসার্টান"), ("atenolol", "এটেনোলল"), ("metoprolol", "মেটোপ্রোলল"), ("propranolol", "প্রোপ্রানোলল"),
    ("aspirin", "অ্যাসপিরিন")
  ]
  const GenericPart2: Table := [
    ("clopidogrel", "ক্লোপিডোগ্রেল"), ("atorvastatin", "অ্যাটরভাস্ট্যাটিন"), ("rosuvastatin", "রসুভাস্ট্যাটিন"), ("metformin", "মেটফরমিন"),
    ("glimepiride", "গ্লিমেপিরাইড"), ("insulin", "ইনসুলিন"), ("domperidone", "ডমপেরিডন"), ("ondansetron", "অন্ডানসেট্রন"),
    ("loperamide", "লোপেরামাইড"), ("fexofenadine", "ফেক্সোফেনাডিন"), ("cetirizine", "সেটিরিজিন"), ("loratadine", "লোরাটাডিন"),
    ("chlorpheniramine", "ক্লোরফেনিরামিন")
  ]
  const GenericPart3: Table := [
    ("montelukast", "মন্টেলুকাস্ট"), ("salbutamol", "সালবিউটামল"), ("theophylline", "থিওফাইলিন"), ("mebendazole", "মেবেন্ডাজল"),
    ("albendazole", "অ্যালবেন্ডাজল"), ("tramadol", "ট্রামাডল"), ("gabapentin", "গ্যাবাপেন্টিন"), ("pregabalin", "প্রিগাবালিন"),
    ("sertraline", "সার্ট্রালিন"), ("fluoxetine", "ফ্লুওক্সেটিন"), ("clonazepam", "ক্লোনাজেপাম"), ("diazepam", "ডায়াজেপাম"),
    ("alprazolam", "অ্যালপ্রাজোলাম")
  ]

  /** `name_lower.startswith(key) or key in name_lower`. */
  predicate PartialMatch(nameLower: string, key: string) {
    StartsWith(nameLower, key) || Contains(nameLower, key)
  }

  /** The first entry at or after `i`, in table order, whose key matches `s` partially. */
  function FirstPartialFrom(t: Table, s: string, i: nat): (r: Option<nat>)
    ensures r.Some? ==> i <= r.value < |t|
    decreases |t| - i
  {
    if i >= |t| then None
    else if PartialMatch(s, t[i].0) then Some(i)
    else FirstPartialFrom(t, s, i + 1)
  }

  /** The name with the matched key's value in place of the key's first occurrence. */
  function Splice(nameLower: string, key: string, value: string): string {
    var remaining := Strip(RemoveFirst(nameLower, key));
    if remaining != "" then value + " " + remaining else value
  }

  /**
   * `get_bengali_name`: the value of the exact key, else the first key in table order that the
   * name contains, spliced into the name, else the transliteration.
   */
  function GetBengaliName(englishName: string, mapping: Table): string {
    var nameLower := Strip(Lower(englishName));
    match Lookup(mapping, nameLower)
    case Some(value) => value
    case None =>
      match FirstPartialFrom(mapping, nameLower, 0)
      case Some(i) => Splice(nameLower, mapping[i].0, mapping[i].1)
      case None => Transliterated(englishName)
  }

  /** `startswith` adds nothing to `in`: a prefix is contained. */
  lemma PartialMatchIsContains(s: string, k: string)
    ensures PartialMatch(s, k) <==> Contains(s, k)
  {
    if StartsWith(s, k) {
      assert OccursAt(s, k, 0);
    }
  }

  /** The first partial match is the first key in table order that the name contains. */
  lemma {:induction false} FirstPartialMeaning(t: Table, s: string, i: nat)
    ensures var r := FirstPartialFrom(t, s, i);
      && (r.Some? ==> Contains(s, t[r.value].0) && forall j :: i <= j < r.value ==> !Contains(s, t[j].0))
      && (r.None? ==> forall j :: i <= j < |t| ==> !Contains(s, t[j].0))
    decreases |t| - i
  {
    if i < |t| {
      PartialMatchIsContains(s, t[i].0);
      FirstPartialMeaning(t, s, i + 1);
      forall j | i + 1 <= j < |t| ensures PartialMatch(s, t[j].0) <==> Contains(s, t[j].0) {
        PartialMatchIsContains(s, t[j].0);
      }
    }
  }

  /** The first key from `i` on that the name contains is the one found. */
  lemma {:induction false} FirstPartialAt(t: Table, s: string, i: nat, m: nat)
    requires i <= m < |t| && Contains(s, t[m].0)
    requires forall j :: i <= j < m ==> !Contains(s, t[j].0)
    ensures FirstPartialFrom(t, s, i) == Some(m)
    decreases m - i
  {
    PartialMatchIsContains(s, t[i].0);
    if i < m {
      FirstPartialAt(t, s, i + 1, m);
    }
  }

  /** An exact key returns its value as it is. */
  lemma GetBengaliNameExact(englishName: string, mapping: Table, m: nat)
    requires DistinctKeys(mapping)
    requires m < |mapping| && mapping[m].0 == Strip(Lower(englishName))
    ensures GetBengaliName(englishName, mapping) == mapping[m].1
  {
    LookupMeaning(mapping, Strip(Lower(englishName)));
  }

  /**
   * Otherwise the first key in table order that the name contains wins: its first occurrence is
   * removed and the stripped rest follows the value after a space, or the value stands alone.
   */
  lemma GetBengaliNamePartial(englishName: string, mapping: Table, m: nat)
    requires forall j :: 0 <= j < |mapping| ==> mapping[j].0 != Strip(Lower(englishName))
    requires m < |mapping| && Contains(Strip(Lower(englishName)), mapping[m].0)
    requires forall j :: 0 <= j < m ==> !Contains(Strip(Lower(englishName)), mapping[j].0)
    ensures var nameLower := Strip(Lower(englishName));
      var remaining := Strip(RemoveFirst(nameLower, mapping[m].0));
      && (remaining == "" ==> GetBengaliName(englishName, mapping) == mapping[m].1)
      && (remaining != "" ==> GetBengaliName(englishName, mapping) == mapping[m].1 + " " + remaining)
  {
    var nameLower := Strip(Lower(englishName));
    LookupAbsent(mapping, nameLower);
    FirstPartialAt(mapping, nameLower, 0, m);
  }

  /** A name that contains no key is transliterated. */
  lemma GetBengaliNameFallback(englishName: string, mapping: Table)
    requires forall j :: 0 <= j < |mapping| ==> !Contains(Strip(Lower(englishName)), mapping[j].0)
    ensures GetBengaliName(englishName, mapping) == Transliterated(englishName)
  {
    var nameLower := Strip(Lower(englishName));
    assert Contains(nameLower, nameLower) by { assert OccursAt(nameLower, nameLower, 0); }
    LookupAbsent(mapping, nameLower);
    FirstPartialMeaning(mapping, nameLower, 0);
  }

  /** A key holding a character the name lacks is not contained in the name. */
  lemma MissingCharNotContained(s: string, k: string, j: nat)
    requires j < |k| && forall i :: 0 <= i < |s| ==> s[i] != k[j]
    ensures !Contains(s, k)
  {
    forall i: nat | i <= |s| ensures !OccursAt(s, k, i) {
      if i + |k| <= |s| {
        assert s[i..i + |k|][j] == s[i + j];
      }
    }
  }

  /** Every key of `t` is at most `n` characters long. */
  predicate KeysAtMost(t: Table, n: nat) {
    forall m :: 0 <= m < |t| ==> |t[m].0| <= n
  }

  lemma KeysAtMostAppend(a: Table, b: Table, n: nat)
    requires KeysAtMost(a, n) && KeysAtMost(b, n)
    ensures KeysAtMost(a + b, n)
  {
  }

  lemma BrandPartsShortLow()
    ensures KeysAtMost(BrandPart0, 14) && KeysAtMost(BrandPart1, 14)
    ensures KeysAtMost(BrandPart2, 14) && KeysAtMost(BrandPart3, 14)
  {
    assert KeysAtMost(BrandPart0, 14);
    assert KeysAtMost(BrandPart1, 14);
    assert KeysAtMost(BrandPart2, 14);
  }

  lemma BrandPartsShortHigh()
    ensures KeysAtMost(BrandPart4, 14) && KeysAtMost(BrandPart5, 14) && KeysAtMost(BrandPart6, 14)
  {
    assert KeysAtMost(BrandPart4, 14);
    assert KeysAtMost(BrandPart5, 14);
  }

  /** Every brand key is at most 14 characters long ("flucloxacillin"). */
  lemma BrandKeysShort()
    ensures KeysAtMost(BrandNameMappings, 14)
  {
    BrandPartsShortLow();
    BrandPartsShortHigh();
    KeysAtMostAppend(BrandPart0, BrandPart1, 14);
    KeysAtMostAppend(BrandPart0 + BrandPart1, BrandPart2, 14);
    KeysAtMostAppend(BrandPart0 + BrandPart1 + BrandPart2, BrandPart3, 14);
    KeysAtMostAppend(BrandPart0 + BrandPart1 + BrandPart2 + BrandPart3, BrandPart4, 14);
    KeysAtMostAppend(BrandPart0 + BrandPart1 + BrandPart2 + BrandPart3 + BrandPart4, BrandPart5, 14);
    KeysAtMostAppend(BrandPart0 + BrandPart1 + BrandPart2 + BrandPart3 + BrandPart4 + BrandPart5, BrandPart6, 14);
  }

  /** The first three brand entries. */
  lemma BrandHead()
    ensures BrandNameMappings[0] == ("napa", "নাপা")
    ensures BrandNameMappings[1] == ("napa extra", "নাপা এক্সট্রা")
    ensures BrandNameMappings[2] == ("ace", "এস")
  {
    assert BrandNameMappings[..12] == BrandPart0;
  }

  lemma ParacetamolNormalized()
    ensures Strip(Lower("Paracetamol 500mg")) == "paracetamol 500mg"
  {
    var s := "paracetamol 500mg";
    assert Lower("Paracetamol 500mg") == s;
    assert SkipSpaces(s, 0) == 0;
    assert BackSpaces(s, 0, |s|) == |s|;
  }

  lemma AceAtThree()
    ensures IndexOf("paracetamol 500mg", "ace") == Some(3)
  {
    var s := "paracetamol 500mg";
    assert s[3..6] == "ace";
    assert OccursAt(s, "ace", 3);
    assert s[0..3][0] != 'a' && s[1..4][1] != 'c' && s[2..5][0] != 'a';
  }

  /**
   * "ace" first occurs in "paracetamol 500mg" at index 3, so cutting it out leaves "par" and
   * "tamol 500mg".
   */
  lemma AceInParacetamol()
    ensures Contains("paracetamol 500mg", "ace")
    ensures Splice("paracetamol 500mg", "ace", "এস") == "এস" + " " + ("par" + "tamol 500mg")
  {
    var s := "paracetamol 500mg";
    AceAtThree();
    assert s[..3] == "par";
    assert s[6..] == "tamol 500mg";
    var r := "par" + "tamol 500mg";
    assert RemoveFirst(s, "ace") == r;
    assert r[0] == 'p' && r[|r| - 1] == 'g';
    assert SkipSpaces(r, 0) == 0;
    assert BackSpaces(r, 0, |r|) == |r|;
    assert r[0..|r|] == r;
  }

  /** A name that contains neither of the first two keys but the third finds the third. */
  lemma FirstPartialThird(t: Table, s: string)
    requires |t| >= 3 && !Contains(s, t[0].0) && !Contains(s, t[1].0) && Contains(s, t[2].0)
    ensures FirstPartialFrom(t, s, 0) == Some(2)
  {
    FirstPartialAt(t, s, 0, 2);
  }

  /** Any table that opens with "napa", "napa extra", "ace" and whose keys are short names Ace. */
  lemma AceFirstContained(t: Table)
    requires |t| >= 3 && t[0].0 == "napa" && t[1].0 == "napa extra" && t[2] == ("ace", "এস")
    requires KeysAtMost(t, 14)
    ensures GetBengaliName("Paracetamol 500mg", t) == "এস" + " " + ("par" + "tamol 500mg")
  {
    var s := "paracetamol 500mg";
    ParacetamolNormalized();
    LookupAbsent(t, s);
    MissingCharNotContained(s, "napa", 0);
    MissingCharNotContained(s, "napa extra", 0);
    AceInParacetamol();
    FirstPartialThird(t, s);
    assert GetBengaliName("Paracetamol 500mg", t) == Splice(s, "ace", "এস");
  }

  /**
   * As written, "ace" comes before "paracetamol" in `BRAND_NAME_MAPPINGS` and is contained in it,
   * so a paracetamol product name that is not exactly a key is named after Ace, with "ace" cut out
   * of the rest.
   */
  lemma AceShadowsParacetamol()
    ensures GetBengaliName("Paracetamol 500mg", BrandNameMappings) == "এস" + " " + ("par" + "tamol 500mg")
  {
    BrandHead();
    BrandKeysShort();
    AceFirstContained(BrandNameMappings);
  }

  // ---------------------------------------------------------------------------
  // Partial matching by the longest contained key
  // ---------------------------------------------------------------------------

  /**
   * The entry from `i` on with the longest key that `s` contains, the earliest one among keys of
   * that length.
   */
  function LongestPartialFrom(t: Table, s: string, i: nat): (r: Option<nat>)
    ensures r.Some? ==> i <= r.value < |t|
    decreases |t| - i
  {
    if i >= |t| then None
    else
      var rest := LongestPartialFrom(t, s, i + 1);
      if !Contains(s, t[i].0) then rest
      else if rest.Some? && |t[rest.value].0| > |t[i].0| then rest
      else Some(i)
  }

  /**
   * `get_bengali_name` with the partial step choosing the longest contained key, so that a key is
   * never preempted by a shorter key that it contains itself.
   */
  function GetBengaliNameLongest(englishName: string, mapping: Table): string {
    var nameLower := Strip(Lower(englishName));
    match Lookup(mapping, nameLower)
    case Some(value) => value
    case None =>
      match LongestPartialFrom(mapping, nameLower, 0)
      case Some(i) => Splice(nameLower, mapping[i].0, mapping[i].1)
      case None => Transliterated(englishName)
  }

  /**
   * The chosen key is contained in the name and no contained key is longer; among the contained
   * keys of that length it is the first; and nothing is chosen only when no key is contained.
   */
  lemma {:induction false} LongestPartialMeaning(t: Table, s: string, i: nat)
    ensures var r := LongestPartialFrom(t, s, i);
      && (r.Some? ==> Contains(s, t[r.value].0))
      && (r.Some? ==> forall j :: i <= j < |t| && Contains(s, t[j].0) ==> |t[j].0| <= |t[r.value].0|)
      && (r.Some? ==> forall j :: i <= j < r.value && Contains(s, t[j].0) ==> |t[j].0| < |t[r.value].0|)
      && (r.None? <==> forall j :: i <= j < |t| ==> !Contains(s, t[j].0))
    decreases |t| - i
  {
    if i < |t| {
      LongestPartialMeaning(t, s, i + 1);
    }
  }

  /**
   * When the first contained key in table order is also a longest contained key, both rules pick
   * it, so the two names agree.
   */
  lemma LongestAgreesWithFirst(englishName: string, mapping: Table, m: nat)
    requires m < |mapping| && Contains(Strip(Lower(englishName)), mapping[m].0)
    requires forall j :: 0 <= j < m ==> !Contains(Strip(Lower(englishName)), mapping[j].0)
    requires forall j :: 0 <= j < |mapping| && Contains(Strip(Lower(englishName)), mapping[j].0) ==>
      |mapping[j].0| <= |mapping[m].0|
    ensures GetBengaliNameLongest(englishName, mapping) == GetBengaliName(englishName, mapping)
  {
    var nameLower := Strip(Lower(englishName));
    FirstPartialAt(mapping, nameLower, 0, m);
    LongestPartialMeaning(mapping, nameLower, 0);
    var r := LongestPartialFrom(mapping, nameLower, 0);
    assert r.Some?;
    assert r.value == m;
  }

  /** A key contained in a longer contained key is never the one chosen. */
  lemma LongestNeverShadowed(t: Table, s: string, i: nat, j: nat)
    requires i < |t| && j < |t| && Contains(s, t[j].0) && |t[i].0| < |t[j].0|
    ensures LongestPartialFrom(t, s, 0) != Some(i)
  {
    LongestPartialMeaning(t, s, 0);
  }

  /** Entry 59 of the brand table is "paracetamol". */
  lemma BrandParacetamol()
    ensures |BrandNameMappings| == 75
    ensures BrandNameMappings[59] == ("paracetamol", "প্যারাসিটামল")
  {
    assert BrandNameMappings[48..60] == BrandPart4;
  }

  /** Every key of `t` at least `n` characters long that `s` contains is `k`. */
  predicate LongContainedOnly(t: Table, s: string, n: nat, k: string) {
    forall j :: 0 <= j < |t| && |t[j].0| >= n && Contains(s, t[j].0) ==> t[j].0 == k
  }

  lemma LongContainedOnlyAppend(a: Table, b: Table, s: string, n: nat, k: string)
    requires LongContainedOnly(a, s, n, k) && LongContainedOnly(b, s, n, k)
    ensures LongContainedOnly(a + b, s, n, k)
  {
  }

  /** Parts 0, 5 and 6 have no key of eleven characters or more. */
  lemma ShortBrandParts()
    ensures LongContainedOnly(BrandPart0, "paracetamol 500mg", 11, "paracetamol")
    ensures LongContainedOnly(BrandPart5, "paracetamol 500mg", 11, "paracetamol")
    ensures LongContainedOnly(BrandPart6, "paracetamol 500mg", 11, "paracetamol")
  {
  }

  lemma LongBrandPart1()
    ensures LongContainedOnly(BrandPart1, "paracetamol 500mg", 11, "paracetamol")
  {
    var s := "paracetamol 500mg";
    MissingCharNotContained(s, "azithromycin", 1);
    MissingCharNotContained(s, "amoxicillin", 3);
    MissingCharNotContained(s, "ciprofloxacin", 1);
    MissingCharNotContained(s, "ceftriaxone", 2);
    MissingCharNotContained(s, "domperidone", 0);
  }

  lemma LongBrandPart2()
    ensures LongContainedOnly(BrandPart2, "paracetamol 500mg", 11, "paracetamol")
  {
    var s := "paracetamol 500mg";
    MissingCharNotContained(s, "esomeprazole", 1);
    MissingCharNotContained(s, "fexofenadine", 0);
    MissingCharNotContained(s, "flucloxacillin", 0);
  }

  lemma LongBrandPart3()
    ensures LongContainedOnly(BrandPart3, "paracetamol 500mg", 11, "paracetamol")
  {
    var s := "paracetamol 500mg";
    MissingCharNotContained(s, "levofloxacin", 2);
    MissingCharNotContained(s, "mebendazole", 2);
    MissingCharNotContained(s, "metronidazole", 5);
  }

  lemma LongBrandPart4()
    ensures LongContainedOnly(BrandPart4, "paracetamol 500mg", 11, "paracetamol")
  {
    var s := "paracetamol 500mg";
    MissingCharNotContained(s, "montelukast", 2);
    MissingCharNotContained(s, "pantoprazole", 2);
  }

  /**
   * Of the brand keys of eleven characters or more, "paracetamol 500mg" contains only
   * "paracetamol": each of the others has a letter the name lacks.
   */
  lemma LongBrandKeys()
    ensures LongContainedOnly(BrandNameMappings, "paracetamol 500mg", 11, "paracetamol")
  {
    var s := "paracetamol 500mg";
    ShortBrandParts();
    LongBrandPart1();
    LongBrandPart2();
    LongBrandPart3();
    LongBrandPart4();
    LongContainedOnlyAppend(BrandPart0, BrandPart1, s, 11, "paracetamol");
    LongContainedOnlyAppend(BrandPart0 + BrandPart1, BrandPart2, s, 11, "paracetamol");
    LongContainedOnlyAppend(BrandPart0 + BrandPart1 + BrandPart2, BrandPart3, s, 11, "paracetamol");
    LongContainedOnlyAppend(BrandPart0 + BrandPart1 + BrandPart2 + BrandPart3, BrandPart4, s, 11, "paracetamol");
    LongContainedOnlyAppend(BrandPart0 + BrandPart1 + BrandPart2 + BrandPart3 + BrandPart4, BrandPart5, s, 11, "paracetamol");
    LongContainedOnlyAppend(BrandPart0 + BrandPart1 + BrandPart2 + BrandPart3 + BrandPart4 + BrandPart5, BrandPart6, s, 11, "paracetamol");
  }

  /** The longest brand key that "paracetamol 500mg" contains is "paracetamol", at entry 59. */
  lemma ParacetamolLongest()
    ensures LongestPartialFrom(BrandNameMappings, "paracetamol 500mg", 0) == Some(59)
  {
    var s := "paracetamol 500mg";
    var t := BrandNameMappings;
    BrandParacetamol();
    assert s[0..11] == "paracetamol";
    assert OccursAt(s, t[59].0, 0);
    LongestPartialMeaning(t, s, 0);
    LongBrandKeys();
    NameMappingsDistinct();
    var r := LongestPartialFrom(t, s, 0);
    assert r.Some? && |t[r.value].0| >= 11 && Contains(s, t[r.value].0);
    assert t[r.value].0 == t[59].0;
  }

  /** A key that opens the name, followed by a space and a trimmed word, gives way to its value. */
  lemma SpliceLeadingKey(k: string, w: string, v: string)
    requires k != [] && w != [] && !IsSpace(w[0]) && !IsSpace(w[|w| - 1])
    ensures Splice(k + " " + w, k, v) == v + " " + w
  {
    var s := k + " " + w;
    assert OccursAt(s, k, 0) by { assert s[0..|k|] == k; }
    var cut := RemoveFirst(s, k);
    assert cut == " " + w by {
      var i: nat :| FirstAt(s, k, i) && cut == s[..i] + s[i + |k|..];
      assert i == 0;
      assert s[..0] + s[|k|..] == " " + w;
    }
    assert cut[1..|cut|] == w;
    StripUnique(cut, 1, |cut|);
  }

  /** Cutting "paracetamol" out of "paracetamol 500mg" leaves the strength behind a space. */
  lemma ParacetamolSpliced()
    ensures Splice("paracetamol 500mg", "paracetamol", "প্যারাসিটামল") == "প্যারাসিটামল" + " " + "500mg"
  {
    assert "paracetamol 500mg" == "paracetamol" + " " + "500mg";
    SpliceLeadingKey("paracetamol", "500mg", "প্যারাসিটামল");
  }

  /**
   * With the longest key, "Paracetamol 500mg" is no longer named after Ace: it is named after
   * Paracetamol, and the strength follows.
   */
  lemma ParacetamolNotAce()
    ensures LongestPartialFrom(BrandNameMappings, "paracetamol 500mg", 0) != Some(2)
    ensures GetBengaliNameLongest("Paracetamol 500mg", BrandNameMappings) == "প্যারাসিটামল" + " " + "500mg"
  {
    var s := "paracetamol 500mg";
    BrandParacetamol();
    ParacetamolNormalized();
    BrandKeysShort();
    LookupAbsent(BrandNameMappings, s);
    ParacetamolLongest();
    ParacetamolSpliced();
  }

  // ---------------------------------------------------------------------------
  // The name tables have distinct keys
  // ---------------------------------------------------------------------------

  /** No key of `a` is a key of `b`. */
  predicate KeysApart(a: Table, b: Table) {
    forall i, j :: 0 <= i < |a| && 0 <= j < |b| ==> a[i].0 != b[j].0
  }

  lemma DistinctKeysAppend(a: Table, b: Table)
    requires DistinctKeys(a) && DistinctKeys(b) && KeysApart(a, b)
    ensures DistinctKeys(a + b)
  {
  }

  lemma KeysApartAppend(a: Table, b: Table, c: Table)
    requires KeysApart(a, c) && KeysApart(b, c)
    ensures KeysApart(a + b, c)
  {
  }

  lemma BrandPartKeys0()
    ensures DistinctKeys(BrandPart0)
    ensures DistinctKeys(BrandPart1)
  {
  }

  lemma BrandPartKeys1()
    ensures DistinctKeys(BrandPart2)
    ensures DistinctKeys(BrandPart3)
  {
  }

  lemma BrandPartKeys2()
    ensures DistinctKeys(BrandPart4)
    ensures DistinctKeys(BrandPart5)
  {
  }

  lemma BrandPartKeys3()
    ensures DistinctKeys(BrandPart6)
    ensures KeysApart(BrandPart0, BrandPart1)
  {
  }

  lemma BrandPartKeys4()
    ensures KeysApart(BrandPart0, BrandPart2)
    ensures KeysApart(BrandPart1, BrandPart2)
  {
  }

  lemma BrandPartKeys5()
    ensures KeysApart(BrandPart0, BrandPart3)
    ensures KeysApart(BrandPart1, BrandPart3)
  {
  }

  lemma BrandPartKeys6()
    ensures KeysApart(BrandPart2, BrandPart3)
    ensures KeysApart(BrandPart0, BrandPart4)
  {
  }

  lemma BrandPartKeys7()
    ensures KeysApart(BrandPart1, BrandPart4)
    ensures KeysApart(BrandPart2, BrandPart4)
  {
  }

  lemma BrandPartKeys8()
    ensures KeysApart(BrandPart3, BrandPart4)
    ensures KeysApart(BrandPart0, BrandPart5)
  {
  }

  lemma BrandPartKeys9()
    ensures KeysApart(BrandPart1, BrandPart5)
    ensures KeysApart(BrandPart2, BrandPart5)
  {
  }

  lemma BrandPartKeys10()
    ensures KeysApart(BrandPart3, BrandPart5)
    ensures KeysApart(BrandPart4, BrandPart5)
  {
  }

  lemma BrandPartKeys11()
    ensures KeysApart(BrandPart0, BrandPart6)
    ensures KeysApart(BrandPart1, BrandPart6)
  {
  }

  lemma BrandPartKeys12()
    ensures KeysApart(BrandPart2, BrandPart6)
    ensures KeysApart(BrandPart3, BrandPart6)
  {
  }

  lemma BrandPartKeys13()
    ensures KeysApart(BrandPart4, BrandPart6)
    ensures KeysApart(BrandPart5, BrandPart6)
  {
  }

  lemma GenericPartKeys0()
    ensures DistinctKeys(GenericPart0)
    ensures DistinctKeys(GenericPart1)
  {
  }

  lemma GenericPartKeys1()
    ensures DistinctKeys(GenericPart2)
    ensures DistinctKeys(GenericPart3)
  {
  }

  lemma GenericPartKeys2()
    ensures KeysApart(GenericPart0, GenericPart1)
    ensures KeysApart(GenericPart0, GenericPart2)
  {
  }

  lemma GenericPartKeys3()
    ensures KeysApart(GenericPart1, GenericPart2)
    ensures KeysApart(GenericPart0, GenericPart3)
  {
  }

  lemma GenericPartKeys4()
    ensures KeysApart(GenericPart1, GenericPart3)
    ensures KeysApart(GenericPart2, GenericPart3)
  {
  }

  /** Both name dictionaries are Python dict literals without a repeated key, so lookups by key are unambiguous. */
  lemma NameMappingsDistinct()
    ensures DistinctKeys(BrandNameMappings)
    ensures DistinctKeys(GenericNameMappings)
  {
    BrandPartKeys0();
    BrandPartKeys1();
    BrandPartKeys2();
    BrandPartKeys3();
    BrandPartKeys4();
    BrandPartKeys5();
    BrandPartKeys6();
    BrandPartKeys7();
    BrandPartKeys8();
    BrandPartKeys9();
    BrandPartKeys10();
    BrandPartKeys11();
    BrandPartKeys12();
    BrandPartKeys13();
    DistinctKeysAppend(BrandPart0, BrandPart1);
    KeysApartAppend(BrandPart0, BrandPart1, BrandPart2);
    DistinctKeysAppend(BrandPart0 + BrandPart1, BrandPart2);
    KeysApartAppend(BrandPart0, BrandPart1, BrandPart3);
    KeysApartAppend(BrandPart0 + BrandPart1, BrandPart2, BrandPart3);
    DistinctKeysAppend(BrandPart0 + BrandPart1 + BrandPart2, BrandPart3);
    KeysApartAppend(BrandPart0, BrandPart1, BrandPart4);
    KeysApartAppend(BrandPart0 + BrandPart1, BrandPart2, BrandPart4);
    KeysApartAppend(BrandPart0 + BrandPart1 + BrandPart2, BrandPart3, BrandPart4);
    DistinctKeysAppend(BrandPart0 + BrandPart1 + BrandPart2 + BrandPart3, BrandPart4);
    KeysApartAppend(BrandPart0, BrandPart1, BrandPart5);
    KeysApartAppend(BrandPart0 + BrandPart1, BrandPart2, BrandPart5);
    KeysApartAppend(BrandPart0 + BrandPart1 + BrandPart2, BrandPart3, BrandPart5);
    KeysApartAppend(BrandPart0 + BrandPart1 + BrandPart2 + BrandPart3, BrandPart4, BrandPart5);
    DistinctKeysAppend(BrandPart0 + BrandPart1 + BrandPart2 + BrandPart3 + BrandPart4, BrandPart5);
    KeysApartAppend(BrandPart0, BrandPart1, BrandPart6);
    KeysApartAppend(BrandPart0 + BrandPart1, BrandPart2, BrandPart6);
    KeysApartAppend(BrandPart0 + BrandPart1 + BrandPart2, BrandPart3, BrandPart6);
    KeysApartAppend(BrandPart0 + BrandPart1 + BrandPart2 + BrandPart3, BrandPart4, BrandPart6);
    KeysApartAppend(BrandPart0 + BrandPart1 + BrandPart2 + BrandPart3 + BrandPart4, BrandPart5, BrandPart6);
    DistinctKeysAppend(BrandPart0 + BrandPart1 + BrandPart2 + BrandPart3 + BrandPart4 + BrandPart5, BrandPart6);
    GenericPartKeys0();
    GenericPartKeys1();
    GenericPartKeys2();
    GenericPartKeys3();
    GenericPartKeys4();
    DistinctKeysAppend(GenericPart0, GenericPart1);
    KeysApartAppend(GenericPart0, GenericPart1, GenericPart2);
    DistinctKeysAppend(GenericPart0 + GenericPart1, GenericPart2);
    KeysApartAppend(GenericPart0, GenericPart1, GenericPart3);
    KeysApartAppend(GenericPart0 + GenericPart1, GenericPart2, GenericPart3);
    DistinctKeysAppend(GenericPart0 + GenericPart1 + GenericPart2, GenericPart3);
  }
}
