# medicine-saver-bd data pipeline, modelled in Dafny

This project models the data pipeline of medicine-saver-bd. The pipeline gathers Bangladeshi
medicine records from several sources: the DGDA list, Medex pages, Kaggle CSV files and a
community price list. It normalises their text fields, reconciles them into one verified
record per medicine, flags price discrepancies, and loads the result into the app's database.

The centre of the model is the cross-source reconciliation of `cross_verify.py`:

- the match key;
- the strength and brand normalisers;
- the first-seen match index;
- the 10% discrepancy rule;
- `verify_and_merge`, with its precedence and confidence policy and its review report.

Around it sit the pipeline scripts' own cleaning, parsing and lookup rules:

- the Bengali transliterator and name lookup;
- the price and record validators;
- the database builder's price parser, get-or-create tables and record loading;
- the real-price extraction and marking passes;
- the manufacturer alias resolution and conditional price update;
- the Medex field derivations;
- the second strength normaliser of the DGDA/Kaggle scraper;
- the Kaggle importer.

Layout:

- There is one module per source file.
- Three modules are shared:
  - `Text` holds Python's string built-ins, restricted to ASCII.
  - `Patterns` holds the number-and-unit regular expressions, with `re.search` and `re.sub` semantics spelled out position by position.
  - `CsvRows` holds CSV rows as maps from column to cell.
- `BrandsTable` is the `brands` table shared by the two marking scripts.
- `PriceText` holds the zero-default price parser that the Medex scraper and the Kaggle importer share.

Pure helpers are functions. Each loop of the source that fills a table, a set or a list, or updates rows, is a method with loop invariants. Each such method is proved against a function that specifies it. The database tables that the scripts update in place are classes.

Where the code and its design notes disagree, the model follows the code:

- In `verify_and_merge` the list of prices that decides confidence always holds the Medex unit price, even when that price is 0. So a Medex price of 0 with one positive DGDA price gives HIGH confidence, not LOW (`Merge.ZeroMedexPriceStillHigh`).
- The "golden record" precedence is not a configurable list: the code hard-wires Medex for the medical fields and DGDA for the price.

## Model

| member | source | states |
|---|---|---|
| CrossVerify.KeepKeyCharsFacts | data_pipeline/cross_verify.py:62-64 | the `[^a-z0-9]` filter leaves only lower-case letters and digits, and leaves a string of those unchanged |
| CrossVerify.KeepKeyCharsAt | data_pipeline/cross_verify.py:62-64 | the filter works character by character: around any character the result is the filtered left part, that character when it is a lower-case letter or a digit, and the filtered right part |
| CrossVerify.MatchKeyFormat | data_pipeline/cross_verify.py:59-65 | a match key holds exactly one `_`, and every other character is a lower-case letter or a digit |
| CrossVerify.SplitAtSeparator | data_pipeline/cross_verify.py:65 | the `_` separator is unambiguous: equal keys have equal brand parts and equal strength parts |
| CrossVerify.MatchKeyEquality | data_pipeline/cross_verify.py:59-65 | two records share a match key exactly when their filtered, lower-cased brands agree and their filtered, lower-cased strengths agree |
| CrossVerify.MatchKeyExample | data_pipeline/cross_verify.py:59-65 | ("Napa", "500 mg") and ("napa", "500mg") get the same key |
| CrossVerify.NormalizeStrengthFacts | data_pipeline/cross_verify.py:88-93 | `normalize_strength` maps "" to ""; its result is lower-case, holds no `' '`, and leaves no number separated by whitespace from a unit after it |
| CrossVerify.StrengthJoinFacts | data_pipeline/cross_verify.py:93 | the number-unit substitution keeps a lower-case space-free text so, and leaves no spaced number-unit pair behind |
| CrossVerify.NormalizeStrengthIdempotent | data_pipeline/cross_verify.py:88-93 | normalising a normalised strength changes nothing |
| CrossVerify.NormalizeStrengthWithoutWhitespace | data_pipeline/cross_verify.py:88-93 | on a strength without whitespace the normaliser only lower-cases |
| CrossVerify.KeepAlnumAndSpace | data_pipeline/cross_verify.py:103 | `[^a-zA-Z0-9\s]` removal leaves only letters, digits and whitespace, and leaves such a text unchanged |
| CrossVerify.KeepAlnumAndSpaceAt | data_pipeline/cross_verify.py:103 | the removal works character by character: around any character the result is the cleaned left part, that character when it is a letter, digit or whitespace, and the cleaned right part |
| CrossVerify.NormalizeBrandFacts | data_pipeline/cross_verify.py:96-104 | `normalize_brand` maps "" to ""; its result is trimmed and single-spaced, holds only letters and digits otherwise, and each word starts upper-case and continues lower-case |
| CrossVerify.NormalizeBrandDropsStrength | data_pipeline/cross_verify.py:100-104 | a brand followed by a space, a whole number and a strength unit in any case normalises as the brand alone |
| CrossVerify.NormalizeBrandKeepsCleanName | data_pipeline/cross_verify.py:100-104 | a name of letters, digits and single spaces in which no strength starts is only title-cased |
| CrossVerify.NormalizeBrandKeepsHyphenatedStrength | data_pipeline/cross_verify.py:100-104 | a strength with a hyphen between number and unit ("5-mg") survives as "5Mg", in which the strength pattern matches again |
| MatchIndex.Keys | data_pipeline/cross_verify.py:177-183 | the index's keys in insertion order: no key twice, and every record's key among them |
| MatchIndex.Bucket | data_pipeline/cross_verify.py:182 | the list under a key holds only records with that key, and no more records than were indexed |
| MatchIndex.BuildMatchIndex | data_pipeline/cross_verify.py:177-183 | `build_match_index` yields the keys in first-seen order, each with the records of that key in input order |
| MatchIndex.IndexStep | data_pipeline/cross_verify.py:180-182 | one `index[key].append(record)` keeps that relation, adding the key last when it is new |
| MatchIndex.BucketEmptyIffAbsent | data_pipeline/cross_verify.py:179-182 | a key's list is empty exactly when the key was never seen |
| MatchIndex.RecordInOwnBucket | data_pipeline/cross_verify.py:180-182 | every record is in the list under its own key |
| MatchIndex.GetIsBucket | data_pipeline/cross_verify.py:235 | `dgda_index.get(key, [])` is the records with that key, `[]` for an unseen key |
| MatchIndex.BucketSizesSum | data_pipeline/cross_verify.py:177-183 | the lists partition the records: their lengths add up to the number of records |
| MatchIndex.KeysMembership | data_pipeline/cross_verify.py:177-183 | a key is in the index exactly when some record has it |
| MatchIndex.KeysAppend | data_pipeline/cross_verify.py:177-183 | indexing `a + b` lists the keys of `a`, then the keys of `b` not in `a`, in order |
| MatchIndex.FirstByKeyMeaning | data_pipeline/cross_verify.py:295-297 | the first record of each key, one per key in key order, is the head of that key's list |
| MatchIndex.FirstByKeyAt | data_pipeline/cross_verify.py:297 | position `j` of the first-per-key records is the head of the list of the `j`-th key, and has that key |
| MatchIndex.Without | data_pipeline/cross_verify.py:296 | a key survives exactly when it is listed and not among the processed keys |
| MatchIndex.FreshFirsts | data_pipeline/cross_verify.py:295-297 | the records the DGDA-only loop takes are, key by unprocessed key in order, the first record of that key |
| MatchIndex.FreshFirstsAt | data_pipeline/cross_verify.py:295-297 | the same, position by position |
| Discrepancy.Positives | data_pipeline/cross_verify.py:195 | the kept prices are all positive and no more than the input |
| Discrepancy.PositivesConcat | data_pipeline/cross_verify.py:195 | filtering a concatenation filters each part |
| Discrepancy.PositivesOfPositives | data_pipeline/cross_verify.py:195 | a list of positive prices passes the filter whole |
| Discrepancy.SumPositive | data_pipeline/cross_verify.py:199-201 | a non-empty list of positive prices has a positive sum |
| Discrepancy.MaxRelDev | data_pipeline/cross_verify.py:203 | the maximum relative deviation bounds every price's deviation from the average and is reached by one of them |
| Discrepancy.CalculatePriceDiscrepancy | data_pipeline/cross_verify.py:186-206 | no positive price gives (0, 0, False); otherwise the average is the mean of the positive prices, the deviation is the largest relative deviation in percent, and the flag is set exactly when it exceeds 10 |
| Discrepancy.MeanOfPositivesIsPositive | data_pipeline/cross_verify.py:199-201 | with a positive price the average is positive, so the `avg_price == 0` branch is never taken |
| Discrepancy.FlagMeaning | data_pipeline/cross_verify.py:203-204 | flagged exactly when some positive price deviates from their mean by more than the 10% tolerance |
| Discrepancy.FlagNeedsTwoPrices | data_pipeline/cross_verify.py:195-204 | a flag needs at least two positive prices |
| Discrepancy.NoPositivePrices | data_pipeline/cross_verify.py:191-197 | `[]` and `[0, 0]` give (0, 0, False) |
| Discrepancy.ToleranceIsStrict | data_pipeline/cross_verify.py:204 | 90 and 110 deviate by exactly 10% and are not flagged |
| Discrepancy.OverToleranceFlagged | data_pipeline/cross_verify.py:204 | 89 and 111 deviate by 11% and are flagged |
| Discrepancy.ZeroPriceLeftOut | data_pipeline/cross_verify.py:195 | a zero price takes no part: `[0, 100]` averages 100 without deviation |
| Merge.LastPositive | data_pipeline/cross_verify.py:241-243 | the DGDA entry of `price_sources` is absent exactly when no DGDA price is positive, and otherwise the last positive one |
| Merge.CollectPrices | data_pipeline/cross_verify.py:238-244 | `all_prices` is the Medex unit price followed by the positive DGDA prices in order; `price_sources` holds the Medex price and the last positive DGDA price |
| Merge.MergeMedexRecord | data_pipeline/cross_verify.py:228-292 | the record built for a Medex key is its verdict, and the discrepancy it reports is the record's flag |
| Merge.DgdaOnlyRecord | data_pipeline/cross_verify.py:297-312 | the record built for a DGDA-only key is its verdict |
| Merge.MergeMedexKeys | data_pipeline/cross_verify.py:221-292 | the Medex loop yields one record per distinct Medex key, in first-seen order, from that key's first record; the review rows of the flagged ones; and the processed keys are exactly the Medex keys |
| Merge.AddDgdaOnlyKeys | data_pipeline/cross_verify.py:295-312 | the second loop appends, for each DGDA key not processed, in index order, the record built from its first DGDA record |
| Merge.VerifyAndMerge | data_pipeline/cross_verify.py:209-314 | `verify_and_merge` returns the Medex-key records followed by the DGDA-only records, and the review rows of the flagged records |
| Merge.ReviewRowsSkipDgdaOnly | data_pipeline/cross_verify.py:294-312 | DGDA-only records add no review row |
| Merge.MergedRowCount | data_pipeline/cross_verify.py:209-314 | one output record per distinct key across both sources |
| Merge.MergedMedexRow | data_pipeline/cross_verify.py:227-281 | record `j` for the `j`-th Medex key comes from that key's first Medex record priced against all DGDA records of the key |
| Merge.MergedDgdaOnlyRow | data_pipeline/cross_verify.py:295-312 | the records after the Medex keys are the DGDA-only keys, built from their first DGDA record: LOW, unflagged, empty pack size, indication and side effects, no Medex price |
| Merge.MedexVerdictFacts | data_pipeline/cross_verify.py:238-279 | HIGH exactly with a positive DGDA price and no flag, MEDIUM with one and a flag, LOW without one; the verified price is the rounded last positive DGDA price, or the rounded Medex price; the medical fields are Medex's |
| Merge.MedexFlagMeaning | data_pipeline/cross_verify.py:247-277 | a Medex-key record is flagged exactly when some positive price among its Medex and DGDA prices deviates from their mean by more than 10% |
| Merge.ZeroMedexPriceStillHigh | data_pipeline/cross_verify.py:239-251 | a Medex price of 0 with one positive DGDA price still counts as two prices: HIGH, at the DGDA price |
| Merge.Flagged | data_pipeline/cross_verify.py:284 | the flagged records are exactly those with the flag set |
| Merge.ReviewRowsMeaning | data_pipeline/cross_verify.py:283-292 | one REVIEW row per flagged record, in order, with its brand, strength, Medex price and DGDA price (0 when absent) and its deviation |
| Merge.FlaggedMedexReview | data_pipeline/cross_verify.py:283-292 | a flagged Medex-key record has a DGDA price; its review row shows the Medex price, the last positive DGDA price and a deviation above 10 |
| Bengali.LookupMeaning | data_pipeline/add_bengali_names.py:187-202 | a dict lookup finds a value exactly when some entry has the key, and the value is that of the first such entry (the only one when keys are distinct) |
| Bengali.MapsHaveLetterKeys | data_pipeline/add_bengali_names.py:157-171 | every key of the consonant and vowel maps is made of lower-case letters |
| Bengali.Step | data_pipeline/add_bengali_names.py:184-212 | one step of the scan consumes one or two characters, so the cursor strictly advances and stays within the name |
| Bengali.StepInvariant | data_pipeline/add_bengali_names.py:183-212 | appending a step's piece keeps "output so far + transliteration of the rest" equal to the whole transliteration |
| Bengali.NextPiece | data_pipeline/add_bengali_names.py:184-212 | one pass of the loop: a two-character consonant, else a two-character vowel, else the single character's image |
| Bengali.Scan | data_pipeline/add_bengali_names.py:180-214 | the while loop returns the left-to-right transliteration of the whole text |
| Bengali.TransliteratePhonetic | data_pipeline/add_bengali_names.py:174-214 | `transliterate_phonetic` is that scan over the lower-cased, stripped name |
| Bengali.NonLetterStep | data_pipeline/add_bengali_names.py:203-210 | at a non-letter the scan emits one character: the Bengali digit for a digit, the character itself otherwise |
| Bengali.NoLettersCharByChar | data_pipeline/add_bengali_names.py:197-212 | a text without letters is rendered character by character |
| Bengali.TranslitFromEmpty | data_pipeline/add_bengali_names.py:183-214 | the rest of the scan yields nothing exactly when no character is left |
| Bengali.PiecesNonEmpty | data_pipeline/add_bengali_names.py:197-210 | every step emits a non-empty piece |
| Bengali.TransliteratedEmpty | data_pipeline/add_bengali_names.py:179-214 | the transliteration is empty exactly when the stripped, lower-cased name is |
| Bengali.PairBeforeLetters | data_pipeline/add_bengali_names.py:185-190 | two-character combinations win over single letters: "CH" becomes "চ" |
| Bengali.FirstPartialFrom | data_pipeline/add_bengali_names.py:228-229 | the partial-match search returns a position of the table |
| Bengali.PartialMatchIsContains | data_pipeline/add_bengali_names.py:229 | `startswith(key) or key in name` holds exactly when `key in name` does |
| Bengali.FirstPartialMeaning | data_pipeline/add_bengali_names.py:228-234 | the partial match is the first key in table order that the name contains, and none is found only when no key is contained |
| Bengali.GetBengaliNameExact | data_pipeline/add_bengali_names.py:221-225 | a name whose stripped lower-case form is a key gets that key's value |
| Bengali.NameMappingsDistinct | data_pipeline/add_bengali_names.py:21-154 | no key repeats in the brand or the generic dictionary, so the exact-key lookup above applies to both |
| Bengali.GetBengaliNamePartial | data_pipeline/add_bengali_names.py:227-234 | otherwise the first contained key's value, followed by a space and the stripped rest of the name when one remains |
| Bengali.GetBengaliNameFallback | data_pipeline/add_bengali_names.py:236-237 | a name containing no key is transliterated |
| Bengali.BrandHead | data_pipeline/add_bengali_names.py:23-25 | the brand table starts with "napa", "napa extra", "ace", in that order |
| Bengali.BrandParacetamol | data_pipeline/add_bengali_names.py:21-98 | the brand table has 75 entries, "paracetamol" at position 59 |
| Bengali.AceShadowsParacetamol | data_pipeline/add_bengali_names.py:227-234 | with the brand table, "Paracetamol 500mg" comes out as "এস partamol 500mg": the earlier key "ace" inside "paracetamol" wins |
| Bengali.LongestPartialFrom | data_pipeline/add_bengali_names.py:228-229 | the longest-key search returns a position of the table |
| Bengali.LongestPartialMeaning | data_pipeline/add_bengali_names.py:228-234 | the corrected partial match is a contained key no other contained key is longer than, the first of that length, and none is found only when no key is contained |
| Bengali.LongestAgreesWithFirst | data_pipeline/add_bengali_names.py:227-234 | where the first contained key is also a longest one, the corrected lookup returns what the original does |
| Bengali.LongestNeverShadowed | data_pipeline/add_bengali_names.py:228-229 | the corrected lookup never picks a key while a longer key is contained |
| Bengali.ParacetamolNotAce | data_pipeline/add_bengali_names.py:82 | the corrected lookup does not take "ace" for "Paracetamol 500mg": it returns "প্যারাসিটামল 500mg", the paracetamol value followed by the strength |
| Bengali.ParacetamolLongest | data_pipeline/add_bengali_names.py:82 | "paracetamol", at entry 59, is the longest brand key that "paracetamol 500mg" contains, so the corrected search picks it |
| Bengali.LongBrandKeys | data_pipeline/add_bengali_names.py:21-98 | of the brand keys of eleven characters or more, only "paracetamol" occurs in "paracetamol 500mg" |
| Bengali.SpliceLeadingKey | data_pipeline/add_bengali_names.py:231-234 | a key that opens the name, followed by a space and a trimmed word, is replaced by its value, a space and that word |
| Validate.ValidatePrice | data_pipeline/validate.py:22-40 | a price that comes back with a value is accepted and lies between 0 and 50000; a rejected price has no value |
| Validate.ValidatePriceMeaning | data_pipeline/validate.py:22-40 | "" gives (True, None); otherwise the price is accepted exactly when its digits and dots form a decimal of at most 50000, and the value is that decimal |
| Validate.MinusSignIgnored | data_pipeline/validate.py:29-34 | a leading `-` is stripped with the other non-digits, so the negative check never fires |
| Validate.UnparseablePrices | data_pipeline/validate.py:29-30 | "abc" and "Tk." are rejected without a value |
| Validate.UpperBoundInclusive | data_pipeline/validate.py:35-38 | exactly 50000 is accepted |
| Validate.NegativeAccepted | data_pipeline/validate.py:29-38 | "-5" is accepted as 5.0 |
| Validate.MessageInjective | data_pipeline/validate.py:49-59 | distinct errors have distinct messages, so counting messages counts errors |
| Validate.RecordErrorsMeaning | data_pipeline/validate.py:43-61 | each missing field yields its error exactly when the field is empty, and the price error exactly when the price is non-empty and rejected |
| Validate.RecordErrorsOrdered | data_pipeline/validate.py:47-59 | the errors come in the order brand, generic, manufacturer, price |
| Validate.ValidateRecord | data_pipeline/validate.py:43-61 | `validate_record` returns those errors, and valid exactly when there are none |
| Validate.ValidRecords | data_pipeline/validate.py:92-94 | the valid records are no more than the records |
| Validate.ValidRecordsMeaning | data_pipeline/validate.py:89-94 | a record is kept exactly when it is one of the records and valid |
| Validate.BrandNames | data_pipeline/validate.py:104 | `brand_names` lists each valid record's brand name, in order |
| Validate.Repeated | data_pipeline/validate.py:105 | a listed name is kept exactly when it occurs more than once |
| Validate.DuplicateNamesMeaning | data_pipeline/validate.py:104-106 | a name is reported as a duplicate exactly when it occurs more than once, and no name is reported twice |
| Validate.ValidateRecords | data_pipeline/validate.py:77-106 | the statistics of `main`: total, valid and invalid counts that add up, the kept records, the missing-price count, the per-error counts over invalid records, and the duplicates among valid brand names |
| Validate.BumpMeaning | data_pipeline/validate.py:97-98 | adding a record's distinct errors raises each of their counts by one and no other count |
| Validate.TallyStep | data_pipeline/validate.py:89-98 | that keeps the counts equal to the number of records seen having each error |
| Validate.TallyErrors | data_pipeline/validate.py:97-98 | the inner loop adds the record's errors to the counter |
| BuildDb.ParsePrice | data_pipeline/build_db.py:141-153 | `parse_price`: None for a missing value; a number only when positive; a string exactly when its digits and dots form a decimal; never negative |
| BuildDb.ParsePriceIgnoresNoise | data_pipeline/build_db.py:150 | everything but digits and dots is ignored |
| BuildDb.ParsePriceZero | data_pipeline/build_db.py:143-153 | the number 0 gives None, the string "0" gives 0.0, "" and a missing value give None |
| BuildDb.PriceChoice | data_pipeline/build_db.py:256 | the price is the parsed `verified_price` when positive, otherwise the parsed `price`, and never negative |
| BuildDb.UnitPriceChoice | data_pipeline/build_db.py:257 | the unit price is the parsed `unit_price` when positive, otherwise the price |
| BuildDb.RowId | data_pipeline/build_db.py:112-113 | `SELECT id ... WHERE name = ?` finds a row exactly when the name was inserted, and returns the id of its first row |
| BuildDb.RowIdOfRow | data_pipeline/build_db.py:123-138 | in a table of distinct names the `k`-th insertion has id `k + 1` |
| BuildDb.RowIdSnoc | data_pipeline/build_db.py:123-138 | inserting a row leaves the ids of the other names unchanged and gives a new name the next id |
| BuildDb.NameTable.constructor | data_pipeline/build_db.py:130-138 | a new manufacturers table is empty |
| BuildDb.NameTable.GetOrCreate | data_pipeline/build_db.py:130-138 | `get_or_create_manufacturer` inserts the name only when it is absent, and returns the name's id |
| BuildDb.GetOrCreateTwice | data_pipeline/build_db.py:130-138 | two calls with one name return the same id and insert at most one row |
| BuildDb.GenericTable.constructor | data_pipeline/build_db.py:105-127 | a new generics table is empty |
| BuildDb.GenericTable.GetOrCreate | data_pipeline/build_db.py:105-127 | `get_or_create_generic` returns the name's id; a known name's medical information is overwritten only when the indication or the side effects are non-empty; a new name is inserted with both |
| BuildDb.EntryColumns | data_pipeline/build_db.py:221-252 | the generic falls back to the `generic` column and the manufacturer to `company`, both stripped; a missing confidence is LOW |
| BuildDb.BrandRow | data_pipeline/build_db.py:252-253 | a brand is verified exactly when its confidence is HIGH or MEDIUM |
| BuildDb.UnverifiedByDefault | data_pipeline/build_db.py:252-253 | a record without a confidence gives an unverified brand |
| BuildDb.FilterMapMeaning | data_pipeline/build_db.py:220-235 | the loaded entries all pass the acceptance test, and every record that passes it is loaded |
| BuildDb.AcceptedEntriesMeaning | data_pipeline/build_db.py:220-235 | a record is loaded exactly when its stripped generic and brand are both non-empty |
| BuildDb.WithMaker | data_pipeline/build_db.py:245-249 | only entries naming a manufacturer reach the manufacturers table |
| BuildDb.BuiltMeaning | data_pipeline/build_db.py:242-282 | every brand row is its entry's, with a generic id that names the entry's generic and a manufacturer id, present exactly when the entry names a manufacturer, that names it |
| BuildDb.GenericsTable | data_pipeline/build_db.py:242-244 | the generics table holds each loaded generic name once, and nothing else |
| BuildDb.MakersTable | data_pipeline/build_db.py:245-249 | the manufacturers table holds each non-empty manufacturer name of the loaded entries once, and nothing else |
| BuildDb.MedicalInfoSnoc | data_pipeline/build_db.py:115-120 | a generic's medical information is that of the last entry for it that carries some |
| BuildDb.MedicalInfoUnseen | data_pipeline/build_db.py:123-126 | a generic no entry names has empty medical information |
| BuildDb.InfoStep | data_pipeline/build_db.py:105-127 | one `get_or_create_generic` keeps each generic's stored information equal to that of the last entry that carried some |
| BuildDb.MakersStep | data_pipeline/build_db.py:245-249 | one record adds its manufacturer to the table when it is new and non-empty, and nothing otherwise |
| BuildDb.IdsStable | data_pipeline/build_db.py:123-138 | inserting names never changes the ids of names already loaded |
| BuildDb.LoadStep | data_pipeline/build_db.py:237-282 | loading one accepted record keeps the database built from the accepted entries so far |
| BuildDb.LoadRecord | data_pipeline/build_db.py:237-282 | the body of the loop for an accepted record: both tables updated and one brand row added, the database still the one built from the accepted entries so far |
| BuildDb.SkipStep | data_pipeline/build_db.py:234-235 | a skipped record changes nothing |
| BuildDb.LoadOrSkip | data_pipeline/build_db.py:220-282 | one pass of the loop: a brand row is added exactly when the record is accepted |
| BuildDb.BuildDatabase | data_pipeline/build_db.py:219-282 | after the loop the tables and brand rows are those built from the accepted records, and `inserted` counts the brand rows |
| BrandsTable.ResetRows | data_pipeline/update_real_prices.py:71 | after the reset every row is ESTIMATED and unverified, with its name and price unchanged |
| BrandsTable.CountVerified | data_pipeline/update_real_prices.py:101-102 | `COUNT(*) ... WHERE verified = 1` counts no more rows than the table has |
| BrandsTable.CountWhere | data_pipeline/update_real_prices.py:84-93 | a count of rows is no more than the number of rows |
| BrandsTable.CountWhereSnoc | data_pipeline/update_real_prices.py:84-93 | one more row raises the count by one exactly when the row qualifies |
| BrandsTable.Store.constructor | data_pipeline/update_real_prices.py:75-76 | the table holds the rows it is given |
| BrandsTable.Store.ResetAll | data_pipeline/update_real_prices.py:71 | `UPDATE brands SET verified = 0, confidence = 'ESTIMATED'` resets every row and nothing else |
| BrandsTable.Store.Verify | data_pipeline/mark_verified_prices.py:62-63 | marking one row VERIFIED changes that row's marks and nothing else |
| BrandsTable.Store.VerifyWithPrice | data_pipeline/update_real_prices.py:87-91 | marking one row VERIFIED at a price changes that row's price and marks and nothing else |
| RealPrices.NormalizeName | data_pipeline/update_real_prices.py:15-19 | `normalize_name` is the lower-cased slice of the name between its leading and trailing whitespace: trimmed, without upper-case letters, no longer than the name |
| RealPrices.NormalizedFixed | data_pipeline/update_real_prices.py:15-19 | a trimmed lower-case name is its own normal form |
| RealPrices.NormalizeNameIdempotent | data_pipeline/update_real_prices.py:15-19 | normalising twice is normalising once |
| RealPrices.NormalizeNameIgnoresCase | data_pipeline/update_real_prices.py:15-19 | names that differ only in case normalise alike |
| RealPrices.AmountEnd | data_pipeline/update_real_prices.py:27-29 | `[\d,.]+` is matched greedily: the amount runs up to the first character that is not a digit, comma or dot |
| RealPrices.TakaAmountAt | data_pipeline/update_real_prices.py:29 | a `৳\s*([\d,.]+)` match starts at a `৳` and captures a non-empty run of digits, commas and dots |
| RealPrices.AmountAt | data_pipeline/update_real_prices.py:27-29 | either pattern captures a non-empty run of digits, commas and dots |
| RealPrices.AmountAtHasTaka | data_pipeline/update_real_prices.py:27-29 | a match of either pattern contains a `৳` |
| RealPrices.AmountValue | data_pipeline/update_real_prices.py:32-36 | the captured amount, when it parses, is not negative |
| RealPrices.AmountIgnoresComma | data_pipeline/update_real_prices.py:32 | commas are removed before parsing: "1,234" reads as "1234" |
| RealPrices.ExtractPrice | data_pipeline/update_real_prices.py:21-37 | `extract_price` of empty text is None, and a price it finds is not negative |
| RealPrices.NoTakaNoPrice | data_pipeline/update_real_prices.py:27-37 | a text without `৳` has no price |
| RealPrices.UnitPricePreferred | data_pipeline/update_real_prices.py:27 | the leftmost "Unit Price: ৳ n" match, when there is one, decides the price |
| RealPrices.FirstTakaOtherwise | data_pipeline/update_real_prices.py:28-29 | without one, the leftmost "৳ n" match decides |
| RealPrices.ListingOf | data_pipeline/update_real_prices.py:54-56 | a Kaggle row is read as its normalised brand name and the price extracted from its package container |
| RealPrices.FirstPrices | data_pipeline/update_real_prices.py:53-61 | every key of the price table is a non-empty name with a positive price |
| RealPrices.FirstPricesSnoc | data_pipeline/update_real_prices.py:58-61 | one row adds its price only when it has a name and a positive price and its name is new |
| RealPrices.FirstPricesKeys | data_pipeline/update_real_prices.py:53-61 | a name is in the table exactly when some row with that name has a positive price |
| RealPrices.FirstPricesFirst | data_pipeline/update_real_prices.py:58-61 | the table keeps the price of the first priced row of each name |
| RealPrices.LoadKagglePrices | data_pipeline/update_real_prices.py:49-61 | the loop of step 1 builds that first-wins table |
| RealPrices.VerifyListed | data_pipeline/update_real_prices.py:84-96 | a brand whose normalised name is listed gets the listed price and VERIFIED; any other is left as it is |
| RealPrices.VerifyAllListed | data_pipeline/update_real_prices.py:81-96 | the second loop treats every brand so, row by row |
| RealPrices.MarkReal | data_pipeline/update_real_prices.py:71-96 | after `main`, a brand is verified exactly when its normalised name is listed: then VERIFIED at the listed price, otherwise ESTIMATED at its old price |
| RealPrices.MarkAllReal | data_pipeline/update_real_prices.py:71-96 | every row ends up so |
| RealPrices.VerifyStep | data_pipeline/update_real_prices.py:81-96 | updating row `i` extends the treated prefix by one row |
| RealPrices.MarkedCount | data_pipeline/update_real_prices.py:84-102 | the number of verified rows afterwards is the number of brands whose name is listed |
| RealPrices.ResetKeepsMarks | data_pipeline/update_real_prices.py:71 | the outcome does not depend on the marks the rows had before |
| RealPrices.VerifyRow | data_pipeline/update_real_prices.py:82-96 | one pass of the loop updates row `i` and tells whether it was listed, which raises the count by one |
| RealPrices.VerifyAll | data_pipeline/update_real_prices.py:78-96 | the loop treats every row, and `updated_count` and `verified_count` both count the listed brands |
| RealPrices.UpdateRealPrices | data_pipeline/update_real_prices.py:70-96 | reset then loop: every row marked as above, and both counters equal the number of listed brands |
| MarkVerified.FirstSuffix | data_pipeline/mark_verified_prices.py:16 | the first position at or after `i` where optional whitespace, a dosage-form word, an optional `s` and the end of the text begin, or the end when there is none |
| MarkVerified.DropFormSuffix | data_pipeline/mark_verified_prices.py:16 | the result is a prefix of the text; it is shorter only when a dosage-form suffix starts where it ends, and no suffix starts any earlier (the leftmost match is removed) |
| MarkVerified.Depunctuate | data_pipeline/mark_verified_prices.py:17 | same length; every character that is neither a word character nor whitespace becomes a space, all others are kept |
| MarkVerified.Tidy | data_pipeline/mark_verified_prices.py:17-18 | on lower-case text the result is clean: only lower-case word characters and single inner spaces, none at either end |
| MarkVerified.TidyFixed | data_pipeline/mark_verified_prices.py:17-18 | clean text passes the punctuation and whitespace steps unchanged |
| MarkVerified.Normalize | data_pipeline/mark_verified_prices.py:10-19 | every name normalises to clean text: lower-case word characters separated by single spaces, no space at either end |
| MarkVerified.NormalizeFixed | data_pipeline/mark_verified_prices.py:10-19 | clean text in which no dosage-form suffix starts is its own normal form |
| MarkVerified.DosageFormDropped | data_pipeline/mark_verified_prices.py:16 | a clean lower-case name followed by a space and a lower-case dosage-form word, plural or not, normalises to the name |
| MarkVerified.DosageFormDroppedAnyCase | data_pipeline/mark_verified_prices.py:14-16 | the same for a name in any case and with any surrounding whitespace: when its lower-cased, stripped text is a clean name, a space and a dosage-form word, it normalises to that name |
| MarkVerified.FormAloneVanishes | data_pipeline/mark_verified_prices.py:16 | a name that is only a dosage-form word normalises to the empty text |
| MarkVerified.NormalizeNotIdempotent | data_pipeline/mark_verified_prices.py:10-19 | normalising is not idempotent: "gel tablet" normalises to "gel", which normalises to "" |
| MarkVerified.NamesOf | data_pipeline/mark_verified_prices.py:44-48 | the names one priced row adds: its normal form, and its first word exactly when that word is longer than three characters |
| MarkVerified.UnionOfMeaning | data_pipeline/mark_verified_prices.py:40-48 | a name is collected exactly when some row contributes it |
| MarkVerified.RealNamesMeaning | data_pipeline/mark_verified_prices.py:37-48 | `real_names` holds exactly the names the priced rows of the CSV contribute |
| MarkVerified.EmptyNameListed | data_pipeline/mark_verified_prices.py:43-44 | a priced row whose name normalises to nothing puts the empty name into `real_names` |
| MarkVerified.AddRowNames | data_pipeline/mark_verified_prices.py:43-48 | one row's pass adds that row's names and nothing else |
| MarkVerified.AddRowNamesAt | data_pipeline/mark_verified_prices.py:40-48 | after row `i` the set holds the names of rows `0..i` |
| MarkVerified.AddNames | data_pipeline/mark_verified_prices.py:44-48 | the two `add` calls add the normal form and its long first word |
| MarkVerified.CollectRealNames | data_pipeline/mark_verified_prices.py:37-48 | the loop over the CSV ends with exactly the names of its priced rows |
| MarkVerified.MarkMatched | data_pipeline/mark_verified_prices.py:59-65 | after reset and matching a row is VERIFIED exactly when its normal form or its first word is a collected name, ESTIMATED otherwise; name and price are untouched |
| MarkVerified.MarkAllMatched | data_pipeline/mark_verified_prices.py:28-65 | the table keeps its length and every row gets its own verdict |
| MarkVerified.VerifyAllMatching | data_pipeline/mark_verified_prices.py:58-65 | the matching loop leaves the table's length and decides every row on its own |
| MarkVerified.VerifyMatchingStep | data_pipeline/mark_verified_prices.py:58-65 | handling row `i` extends the handled prefix by that row and leaves the rest of the table alone |
| MarkVerified.MatchedCount | data_pipeline/mark_verified_prices.py:70-71 | the VERIFIED count after the run equals the number of matching rows |
| MarkVerified.MarksIgnored | data_pipeline/mark_verified_prices.py:28-65 | the result does not depend on the marks the table had before the run |
| MarkVerified.EmptyNormalMatches | data_pipeline/mark_verified_prices.py:59-63 | once the empty name is collected, every brand whose name normalises to nothing is VERIFIED |
| MarkVerified.VerifyMatchingRow | data_pipeline/mark_verified_prices.py:59-65 | one pass marks row `i` when it matches, leaves every other row alone and adds one to `matched` exactly then |
| MarkVerified.VerifyAllMatches | data_pipeline/mark_verified_prices.py:57-65 | the loop marks exactly the matching rows and `matched` is their number |
| MarkVerified.MarkVerifiedPrices | data_pipeline/mark_verified_prices.py:28-65 | reset then match: every row ends VERIFIED or ESTIMATED by its own match, and `matched` counts the VERIFIED rows |
| MarkVerified.ResetThenVerify | data_pipeline/mark_verified_prices.py:30 | matching after the reset gives each row its verdict regardless of its earlier marks, and the reset does not change how many rows match |
| MarkVerified.ResetKeepsCount | data_pipeline/mark_verified_prices.py:30 | the reset changes no name, so the number of matching rows stays the same |
| NewPrices.NormalizeChars | data_pipeline/load_new_prices.py:19-23 | a normalized text holds no hyphen, no space and no upper-case letter |
| NewPrices.NormalizeTrimmed | data_pipeline/load_new_prices.py:19-23 | on text without whitespace at either end, normalizing is lower-casing and dropping hyphens and spaces |
| NewPrices.SeparatorIgnored | data_pipeline/load_new_prices.py:19-23 | a hyphen or space between two parts of a name makes no difference to its normal form ("Square-Pharma" and "Square Pharma" meet) |
| NewPrices.ShortName | data_pipeline/load_new_prices.py:50 | the short name is the simplified name up to its first "pharm" or "lab", whichever comes first, or all of it when it has neither, stripped |
| NewPrices.BeforeMarkers | data_pipeline/load_new_prices.py:50 | splitting at "pharm" and then at "lab" cuts at the first of the two markers: a "lab" cannot straddle the cut at "pharm" |
| NewPrices.FirstMarkerUnique | data_pipeline/load_new_prices.py:50 | that cut point is unique |
| NewPrices.AliasesOf | data_pipeline/load_new_prices.py:44-52 | a manufacturer is stored under its normalized name first, and under a second key exactly when its short name is longer than three characters, that key being the short name |
| NewPrices.PutAll | data_pipeline/load_new_prices.py:46-52 | assigning keys one after another keeps the dictionary well formed: every key listed once and exactly the listed keys mapped |
| NewPrices.Table | data_pipeline/load_new_prices.py:42-52 | the alias table built manufacturer by manufacturer is a well-formed dictionary |
| NewPrices.AliasMap | data_pipeline/load_new_prices.py:42-52 | `mfr_map` after step 1 is a well-formed dictionary |
| NewPrices.PutAllKeys | data_pipeline/load_new_prices.py:46-52 | assignment appends each new key at the end and leaves an existing key in its place, as a Python dict keeps insertion order |
| NewPrices.TableOrder | data_pipeline/load_new_prices.py:42-52 | the iteration order of `mfr_map` is the order in which its keys were first assigned |
| NewPrices.PutAllNames | data_pipeline/load_new_prices.py:46-52 | after assigning keys to a name each of those keys maps to it and every other key keeps its value |
| NewPrices.TableKeys | data_pipeline/load_new_prices.py:42-52 | a text is a key of `mfr_map` exactly when it is an alias of some manufacturer |
| NewPrices.TableLastWins | data_pipeline/load_new_prices.py:42-52 | a key maps to the last manufacturer that has it as an alias |
| NewPrices.TableStep | data_pipeline/load_new_prices.py:44-52 | one more manufacturer extends the table by that manufacturer's aliases |
| NewPrices.BuildAliasMap | data_pipeline/load_new_prices.py:42-52 | the loop of step 1 builds exactly the alias table, with its keys in insertion order |
| NewPrices.AddManufacturer | data_pipeline/load_new_prices.py:45-52 | one pass of the loop assigns the manufacturer to its aliases, in order |
| NewPrices.Assign | data_pipeline/load_new_prices.py:46 | `mfr_map[k] = v` on the keys-and-values pair is dictionary assignment |
| NewPrices.FirstRelated | data_pipeline/load_new_prices.py:89-92 | the first key in iteration order that contains the company or is contained in it, or none when no key is |
| NewPrices.ResolveExact | data_pipeline/load_new_prices.py:85-86 | a company whose normal form is a key resolves to that key's manufacturer |
| NewPrices.ResolveFirstRelated | data_pipeline/load_new_prices.py:88-92 | otherwise it resolves to the manufacturer of the first related key in iteration order |
| NewPrices.FirstRelatedAt | data_pipeline/load_new_prices.py:89-92 | the search returns the first related key at or after its start |
| NewPrices.ResolveFallback | data_pipeline/load_new_prices.py:94-95 | a company with no exact and no related key falls back to its own text |
| NewPrices.BlankCompanyTakesFirst | data_pipeline/load_new_prices.py:88-92 | a company that normalises to the empty text is contained in every key; unless the empty text is itself a key (then the exact match of lines 85-86 wins), it resolves to the manufacturer of the first key, provided that manufacturer is not blank |
| NewPrices.ResolveCompany | data_pipeline/load_new_prices.py:80-95 | the resolution code computes the resolution the lemmas above describe |
| NewPrices.IndexKeys | data_pipeline/load_new_prices.py:61-66 | a pair of normal forms is a key of `existing` exactly when some brand has it |
| NewPrices.IndexLastWins | data_pipeline/load_new_prices.py:61-66 | the entry under a key comes from the last brand with that key |
| NewPrices.BuildBrandIndex | data_pipeline/load_new_prices.py:61-66 | the loop of step 2 builds exactly that index |
| NewPrices.CloseEnoughKept | data_pipeline/load_new_prices.py:107-110 | a matched row whose price is within 0.01 of the stored one is not written |
| NewPrices.Outcomes | data_pipeline/load_new_prices.py:75-112 | one outcome per row of the CSV, each decided on its own |
| NewPrices.OutcomeCounts | data_pipeline/load_new_prices.py:102-112 | `matched` plus the length of `not_found` is the number of rows, and `updated` is at most `matched` |
| NewPrices.ApplyKeys | data_pipeline/load_new_prices.py:109 | the updates change no brand's presence: the same ids have prices before and after |
| NewPrices.LastWriteWins | data_pipeline/load_new_prices.py:109 | a brand written by several rows ends with the price of the last one |
| NewPrices.UnwrittenKept | data_pipeline/load_new_prices.py:109 | a brand no row writes keeps its price |
| NewPrices.OutcomeStep | data_pipeline/load_new_prices.py:100-112 | one more row raises `matched`, `updated` and `not_found` and changes the table exactly as its outcome says |
| NewPrices.PriceTable.constructor | data_pipeline/load_new_prices.py:38-39 | the table holds the prices it is given |
| NewPrices.PriceTable.SetPrice | data_pipeline/load_new_prices.py:109 | `UPDATE brands SET price` changes only the brand with that id, and nothing when there is none |
| NewPrices.RowOutcome | data_pipeline/load_new_prices.py:76-112 | the code for one row computes that row's outcome |
| NewPrices.ProcessRow | data_pipeline/load_new_prices.py:100-112 | one pass of the loop advances the counters, the list of misses and the table by one row's outcome |
| NewPrices.LoadNewPrices | data_pipeline/load_new_prices.py:25-115 | `matched`, `updated` and `not_found` and the final prices are those of the rows' outcomes, applied in row order |
| MedexScraper.Strength | data_pipeline/scrape_medex.py:127-130 | the strength is lower-case without spaces and starts with a digit; it is empty exactly when no position of the brand name starts a match of the strength pattern |
| MedexScraper.StrengthIsFirstToken | data_pipeline/scrape_medex.py:128-130 | the strength is the leftmost match, lower-cased and with its spaces removed |
| MedexScraper.StrengthIsNormalized | data_pipeline/scrape_medex.py:127-130 | when the name has no whitespace but `' '`, the cross-verification's `normalize_strength` leaves the scraped strength as it is |
| MedexScraper.TokenIsNormalized | data_pipeline/scrape_medex.py:130 | lower-cased text without spaces is already a normal strength for the cross-verification |
| MedexScraper.FirstFormIn | data_pipeline/scrape_medex.py:138-141 | the first form word, from position `i` on, that the name contains, or none when it contains none |
| MedexScraper.TitleOfWord | data_pipeline/scrape_medex.py:140 | `title()` of a lower-case word capitalises its first letter and lower-cases back to the word |
| MedexScraper.FallbackFormMeaning | data_pipeline/scrape_medex.py:135-141 | the guessed form is empty exactly when the brand name contains none of the eight form words; otherwise it is the title-cased first listed word that it contains |
| MedexScraper.FirstDigitFrom | data_pipeline/scrape_medex.py:160 | the first digit at or after `i`, or none when there is none |
| MedexScraper.FirstInteger | data_pipeline/scrape_medex.py:160-162 | `re.search(r"(\d+)")` finds nothing exactly when the text has no digit, and otherwise reads a whole run of digits |
| MedexScraper.FirstIntegerOfDigits | data_pipeline/scrape_medex.py:160-162 | on a text of digits the first integer is the text's value |
| MedexScraper.PackQuantity | data_pipeline/scrape_medex.py:158-162 | a pack size without a digit leaves the quantity at 1 |
| MedexScraper.UnitPriceOf | data_pipeline/scrape_medex.py:157-164 | the unit price is the pack price when the pack size has no number or the number is 0, and otherwise the pack price per item rounded to within half a paisa; it is never negative for a price that is not |
| MedexScraper.ScrapeBrandDetails | data_pipeline/scrape_medex.py:109-191 | the page's fields become the record `Details` describes |
| MedexScraper.GuessDosageForm | data_pipeline/scrape_medex.py:135-141 | the loop over the form words returns the fallback form |
| MedexScraper.DeriveUnitPrice | data_pipeline/scrape_medex.py:156-164 | the code returns the unit price and pack quantity described above |
| MedexScraper.DetailsTexts | data_pipeline/scrape_medex.py:116-191 | names and pack size keep the words of the page text and come out trimmed and single-spaced; indication, side effects and contraindication are each the first 500 characters of the normalized text, or all of it when shorter; the source is "medex" |
| MedexScraper.DetailsStrengthAndForm | data_pipeline/scrape_medex.py:126-141 | the strength is empty exactly when the brand name has no strength, and is its own normal form; the page's dosage form wins and the guess is used only when it is empty |
| MedexScraper.DetailsPrices | data_pipeline/scrape_medex.py:147-164 | MRP and unit price are never negative; the unit price is the MRP per item of the pack when the quantity is positive, and the MRP otherwise |
| MedexScraper.ShareSign | data_pipeline/scrape_medex.py:164 | a share of a non-negative price over a positive quantity is not negative |
| Scraper.NormalizeStrength | data_pipeline/scraper.py:48-56 | empty text stays empty; every result is lower-case and holds no `' '` |
| Scraper.NormalizeStrengthJoins | data_pipeline/scraper.py:48-56 | a whole number, one whitespace character other than `' '` and a unit become the number joined to the unit |
| Scraper.NormalizeStrengthLeavesNoOneSpaceUnit | data_pipeline/scraper.py:55 | no number is left separated from a unit by exactly one whitespace character |
| Scraper.JoinIsIdleOnBlanks | data_pipeline/scraper.py:53-55 | when `' '` is the only whitespace, the unit-joining substitution changes nothing: the result is the text lower-cased without spaces |
| Scraper.AgreesWithCrossVerify | data_pipeline/scraper.py:48-56 | the scraper's and the cross-verification's `normalize_strength` agree on every text whose only whitespace is `' '` |
| Scraper.DisagreesOnTabbedPercent | data_pipeline/scraper.py:55 | they part on "5\t%": the scraper keeps it, the cross-verification joins it to "5%" |
| Scraper.KaggleMedicineFacts | data_pipeline/scraper.py:120-127 | the names of a loaded record are trimmed, single-spaced and already normal; its strength is lower-case without spaces and is a normal strength for the cross-verification when the cell has no tab or line break; its price is the cell's text |
| ImportKaggle.LoadGenerics | data_pipeline/import_kaggle.py:44-54 | the loop over the generics file builds the table keyed by lower-cased non-empty name |
| ImportKaggle.KeyedTableKeys | data_pipeline/import_kaggle.py:46-53 | a key is in the table exactly when it is non-empty and some row has it |
| ImportKaggle.KeyedTableLastWins | data_pipeline/import_kaggle.py:46-53 | the entry under a key comes from the last row with that key |
| ImportKaggle.GenericsKeys | data_pipeline/import_kaggle.py:47-49 | a name is a key exactly when some row's non-empty generic name lower-cases to it |
| ImportKaggle.GenericsLastWins | data_pipeline/import_kaggle.py:47-53 | the entry under a name holds the indication, description and side effects of the last row with that name in any case |
| ImportKaggle.ImportData | data_pipeline/import_kaggle.py:69-110 | one record per row of the medicine file, in row order, each the record that row becomes |
| ImportKaggle.AppendEach | data_pipeline/import_kaggle.py:71-110 | the appending loop yields exactly one record per row, in order |
| ImportKaggle.MedicinePrices | data_pipeline/import_kaggle.py:83-108 | prices are never negative; the verified price is the pack price when that is positive and the unit price otherwise, so it is positive exactly when one of them is; every record is HIGH confidence without a discrepancy flag |
| ImportKaggle.MedicineInfo | data_pipeline/import_kaggle.py:91-94 | indication and side effects come from the generics entry for the lower-cased generic name, and are empty when there is none |
| ImportKaggle.InfoFromLastGenericRow | data_pipeline/import_kaggle.py:44-94 | a medicine whose generic name matches, ignoring case, the last generics row carrying that name gets that row's indication and side effects |
| PriceText.PriceOrZero | data_pipeline/scrape_medex.py:67-76 | the price is never negative; text without a digit reads as 0, text of digits alone as its integer value |
| PriceText.PriceOrZeroIsParsePriceOrZero | data_pipeline/import_kaggle.py:25-32 | the zero-default parser is the database builder's parser with "no price" read as 0; it is positive exactly when that parser gives a positive price |
| PriceText.ZeroDefaultConflates | data_pipeline/import_kaggle.py:25-32 | "", "Tk." and "0" all read as 0 here, while the database builder tells "no price" (the first two) from the price 0 |
| PriceText.AgreesWithValidator | data_pipeline/validate.py:22-40 | a value the validator accepts is the value the zero-default parser reads; text it rejects reads as 0 or as more than the validator's bound |
| PriceText.KeepDigitsAndDotsHasDigit | data_pipeline/scrape_medex.py:72 | removing all but digits and dots keeps a digit exactly when there was one |
| Text.Lower | data_pipeline/cross_verify.py:59-65 | same length, each character lower-cased on its own |
| Text.LowerChar | data_pipeline/cross_verify.py:59-65 | a lower-cased character is not upper-case, keeps its class (letter, digit, whitespace), and a character that is not upper-case is unchanged |
| Text.Title | data_pipeline/scrape_medex.py:140 | `str.title()`: same length, non-letters kept, a letter starting a run of letters upper-case and every later letter of the run lower-case |
| Text.Strip | data_pipeline/scrape_medex.py:83 | `strip()`: the result is the slice of the text between its leading and its trailing whitespace, and starts and ends with a non-whitespace character or is empty |
| Text.StripUnique | data_pipeline/scrape_medex.py:83 | any slice that has only whitespace around it and none at its ends is the stripped text |
| Text.CollapseSpaces | data_pipeline/scrape_medex.py:83 | `re.sub(r"\s+", " ", s)`: the result is single-spaced, splits into the same words as the input, and is empty exactly when the input is |
| Text.WordsMeaning | data_pipeline/cross_verify.py:104 | `str.split()` gives non-empty words without whitespace that, put together, are exactly the non-whitespace characters of the text in order |
| Text.CollapseSpacesFixed | data_pipeline/scrape_medex.py:83 | a single-spaced text that does not start with whitespace is left unchanged |
| Text.NormalizeText | data_pipeline/scrape_medex.py:79-83 | the result is trimmed and single-spaced, splits into the same words as the input, and is empty exactly when the input is all whitespace |
| Text.NormalizeTextTrailingSpace | data_pipeline/scrape_medex.py:79-83 | whitespace appended after the text does not change its normal form |
| Text.NormalizeTextIdempotent | data_pipeline/scrape_medex.py:79-83 | normalizing a normalized text changes nothing |
| Text.FirstWord | data_pipeline/mark_verified_prices.py:46 | `split()[0]`: the longest prefix without whitespace, ended by whitespace or the end |
| Text.IndexOf | data_pipeline/add_bengali_names.py:229 | a text contains a key exactly when an occurrence is found, and the one found is the leftmost |
| Text.RemoveFirst | data_pipeline/add_bengali_names.py:231 | `replace(key, '', 1)`: the text unchanged when the key is absent, and otherwise the text with one occurrence cut out |
| Text.Before | data_pipeline/load_new_prices.py:50 | `split(sep)[0]`: the whole text when the separator is absent, otherwise the prefix up to its leftmost occurrence |
| Text.Delete | data_pipeline/cross_verify.py:92 | `replace(c, '')`: no `c` remains, every other character is kept with its count, and a text without `c` is unchanged |
| Text.Truncate | data_pipeline/scrape_medex.py:186-188 | `[:500]`: a prefix of the text, exactly as long as the bound when the text is longer, and the whole text when it fits |
| Text.KeepDigitsAndDots | data_pipeline/scrape_medex.py:72 | only digits and dots remain, the result is no longer than the input, and text of digits and dots is unchanged |
| Text.KeepDigitsAndDotsAt | data_pipeline/scrape_medex.py:72 | the filter works character by character: around any character the result is the filtered left part, that character when it is a digit or a dot, and the filtered right part |
| Text.ParseDecimal | data_pipeline/scrape_medex.py:74 | `float` on digits and dots succeeds exactly when there is a digit and at most one dot; the value is non-negative, and an integer text reads as its integer value |
| Text.DecimalValue | data_pipeline/scrape_medex.py:74 | the value of digits `ip` and fraction digits `fp` is the integer `ip fp` divided by ten to the number of fraction digits |
| Text.ParseDecimalAt | data_pipeline/scrape_medex.py:74 | digits, a dot and digits read as that decimal value |
| Text.ParseDecimalExample | data_pipeline/scrape_medex.py:74 | "12.5" reads as 12.5 |
| Text.Round2 | data_pipeline/scrape_medex.py:164 | `round(x, 2)` lies within half a paisa of `x` and keeps a non-negative value non-negative |
| CsvRows.FirstFilled | data_pipeline/import_kaggle.py:73-89 | `row.get(a) or row.get(b) or ...`: empty exactly when every listed cell is empty, otherwise one of the listed cells |
| CsvRows.FirstFilledPicksFirst | data_pipeline/import_kaggle.py:73-89 | it is the first non-empty cell in the listed order |
| Patterns.DigitRun | data_pipeline/cross_verify.py:93 | `\d+` from a position: the longest run of digits there |
| Patterns.UnitAtMeaning | data_pipeline/cross_verify.py:93 | a unit is recognised at a position exactly when one of the listed units starts there, and the length returned is that unit's |
| Patterns.MatchAtMeaning | data_pipeline/cross_verify.py:93 | a match at a position is a number starting and ending with a digit, a whitespace gap and a listed unit; with no match no unit follows the gap |
| Patterns.MatchTable | data_pipeline/cross_verify.py:93 | the match attempted at every position, in a table that `re.sub` consults |
| Patterns.SearchFrom | data_pipeline/scrape_medex.py:128 | `re.search`: the leftmost position at or after `i` that starts a match, or none when no position does |
| Patterns.JoinWithoutSpaceIsIdentity | data_pipeline/scraper.py:55 | on text without whitespace the number-unit joining substitution changes nothing |
| Patterns.JoinLeavesNoSpacedUnit | data_pipeline/cross_verify.py:93 | after the substitution no number is followed by whitespace and a unit it would have joined |
| Patterns.JoinLeavesNoOneSpaceUnit | data_pipeline/scraper.py:55 | after the integer pattern's substitution no number is followed by exactly one whitespace character and a unit |
| Patterns.NumberAndUnitMatch | data_pipeline/cross_verify.py:100 | digits followed directly by a unit in any case form one case-insensitive match |
| Patterns.NumberSpaceUnitMatch | data_pipeline/scraper.py:55 | digits, one whitespace character and a unit form one match of the integer pattern |
| Patterns.SubMatched | data_pipeline/cross_verify.py:93 | at a matching position `re.sub` emits the replacement and resumes after the match |
| Patterns.SubUnmatched | data_pipeline/cross_verify.py:93 | at any other position it copies the character and moves on |

## Left out

- Network scraping and HTML parsing are outside the model: `safe_request`, the brand-list and DGDA page scrapers, and the selectors of `scrape_brand_details`. A scraped page enters the model as a record of the texts its selectors found (`MedexScraper.Page`). The `h1` fallback for the brand heading is part of that selection.
- CSV, JSON and SQLite I/O are outside the model: reading and writing files, schema creation, the FTS index, `populate_bengali_names` and `verify_bengali_names`. CSV rows are maps from column to cell. Tables are sequences of rows or classes holding them. The brand rows of the marking scripts are addressed by position, not by SQL id.
- `import_data` aborts when the medicine file is missing and writes its output CSV. Both are file I/O. When `generic.csv` is missing, `load_generics` returns an empty table, which is `Generics([])`.
- Console output, progress messages, sleeps and the wall clock (`datetime.now()`, `last_updated`) are left out.
- The randomised price generators, the pure-SQL and inspection scripts, and the Android glue code are left out.
- Python's `\d`, `\s`, `\w`, `lower()`, `title()` and `float()` are modelled on ASCII only. Unicode digits, case mappings and whitespace are not modelled.
- `round(x, 2)` is `Text.Round2`, exact rounding on reals. Binary floating point is not modelled.
- `Text.Round2`: its contract states only that the result is within 0.005 of the input and keeps its sign.
- The `f"{deviation:.1f}%"` text of the discrepancy report is kept as the deviation value, not as formatted text.
- `NewPrices.LoadNewPrices`: `float(row['price'])` is assumed to succeed. A row whose price does not parse, which would abort the script, is not modelled.
- `str()` applied to non-string cells in the Kaggle importer is not modelled: every cell is text.
- `import_data` reads `medicines[0]` to name the CSV columns, which raises an `IndexError` when the medicine file has no rows. The model returns an empty list instead, because writing the file is I/O outside the model.
- The confidence input from crowdsourced reports that `cross_verify.py` mentions has no code and is not modelled.

## Findings

| source | as written | input that shows it | evidently intended | confidence | as-written member | corrected member |
|---|---|---|---|---|---|---|
| data_pipeline/add_bengali_names.py:227-234 | the partial lookup takes the first key, in table order, that is contained in the name; "ace" comes early in the table and occurs inside "paracetamol" | `get_bengali_name("Paracetamol 500mg", BRAND_NAME_MAPPINGS)` gives "এস partamol 500mg" | the key that matches most of the name wins, so "paracetamol" is used rather than "ace" | not executed | Bengali.AceShadowsParacetamol | Bengali.LongestPartialMeaning |
