/**
 * `build_match_index`: the records of one source grouped by match key. Python's
 * `defaultdict(list)` keeps its keys in first-insertion order, so the index is a key
 * sequence in first-seen order together with a map from each key to its bucket.
 * The grouping is stated for any record type `R` and key function `keyOf`; the
 * reconciliation instantiates it with the medicine records and their match key.
 */
module MatchIndex {
  import Text

  lemma TakeSnoc<T>(s: seq<T>, i: nat)
    requires i < |s|
    ensures s[..i + 1] == s[..i] + [s[i]]
  {
  }

  predicate Distinct(ks: seq<string>) {
    forall i, j :: 0 <= i < j < |ks| ==> ks[i] != ks[j]
  }

  /** The distinct keys of `records`, in the order they are first seen. */
  function Keys<R>(records: seq<R>, keyOf: R -> string): (ks: seq<string>)
    ensures Distinct(ks)
    ensures forall i :: 0 <= i < |records| ==> keyOf(records[i]) in ks
  {
    if records == [] then []
    else
      var init := records[..|records| - 1];
      var ks := Keys(init, keyOf);
      var k := keyOf(records[|records| - 1]);
      assert forall i :: 0 <= i < |init| ==> records[i] == init[i];
      if k in ks then ks else ks + [k]
  }

  /** The records whose key is `k`, in input order. */
  function Bucket<R>(records: seq<R>, keyOf: R -> string, k: string): (b: seq<R>)
    ensures |b| <= |records|
    ensures forall i :: 0 <= i < |b| ==> keyOf(b[i]) == k
  {
    if records == [] then []
    else
      var b := Bucket(records[..|records| - 1], keyOf, k);
      var last := records[|records| - 1];
      if keyOf(last) == k then b + [last] else b
  }

  /** The first record of each distinct key, in first-seen order. */
  function FirstByKey<R>(records: seq<R>, keyOf: R -> string): seq<R> {
    if records == [] then []
    else
      var init := records[..|records| - 1];
      var last := records[|records| - 1];
      if keyOf(last) in Keys(init, keyOf) then FirstByKey(init, keyOf) else FirstByKey(init, keyOf) + [last]
  }

  /** The index as `build_match_index` leaves it. */
  datatype Index<R> = Index(keys: seq<string>, buckets: map<string, seq<R>>)
  {
    /** `index.get(key, [])`. */
    function Get(k: string): seq<R> {
      if k in buckets then buckets[k] else []
    }
  }

  /** `index` groups `records`: its keys are the first-seen keys and each bucket holds that key's records. */
  ghost predicate Indexes<R>(index: Index<R>, records: seq<R>, keyOf: R -> string) {
    && index.keys == Keys(records, keyOf)
    && (forall k :: k in index.buckets <==> k in index.keys)
    && (forall k :: k in index.buckets ==> index.buckets[k] == Bucket(records, keyOf, k))
  }

  /** `build_match_index`: append every record to the bucket of its key. */
  method BuildMatchIndex<R>(records: seq<R>, keyOf: R -> string) returns (index: Index<R>)
    ensures Indexes(index, records, keyOf)
  {
    var keys: seq<string> := [];
    var buckets: map<string, seq<R>> := map[];
    var i := 0;
    while i < |records|
      invariant 0 <= i <= |records|
      invariant Indexes(Index(keys, buckets), records[..i], keyOf)
    {
      var record := records[i];
      var k := keyOf(record);
      TakeSnoc(records, i);
      IndexStep(keys, buckets, records[..i], keyOf, record);
      if k in buckets {
        buckets := buckets[k := buckets[k] + [record]];
      } else {
        keys := keys + [k];
        buckets := buckets[k := [record]];
      }
      i := i + 1;
    }
    assert records[..i] == records;
    index := Index(keys, buckets);
  }

  /** One step of the loop of `BuildMatchIndex` keeps the index faithful to the records seen. */
  lemma IndexStep<R>(keys: seq<string>, buckets: map<string, seq<R>>, records: seq<R>, keyOf: R -> string, r: R)
    requires Indexes(Index(keys, buckets), records, keyOf)
    ensures var k := keyOf(r);
      k in buckets ==> Indexes(Index(keys, buckets[k := buckets[k] + [r]]), records + [r], keyOf)
    ensures var k := keyOf(r);
      k !in buckets ==> Indexes(Index(keys + [k], buckets[k := [r]]), records + [r], keyOf)
  {
    KeysSnoc(records, keyOf, r);
    forall k {
      BucketSnoc(records, keyOf, r, k);
    }
    BucketEmptyIffAbsent(records, keyOf, keyOf(r));
  }

  // ---------------------------------------------------------------------------
  // Properties of the grouping
  // ---------------------------------------------------------------------------

  lemma BucketSnoc<R>(records: seq<R>, keyOf: R -> string, r: R, k: string)
    ensures Bucket(records + [r], keyOf, k) == Bucket(records, keyOf, k) + (if keyOf(r) == k then [r] else [])
  {
    assert (records + [r])[..|records|] == records;
  }

  lemma KeysSnoc<R>(records: seq<R>, keyOf: R -> string, r: R)
    ensures Keys(records + [r], keyOf) ==
      if keyOf(r) in Keys(records, keyOf) then Keys(records, keyOf) else Keys(records, keyOf) + [keyOf(r)]
  {
    assert (records + [r])[..|records|] == records;
  }

  lemma FirstByKeySnoc<R>(records: seq<R>, keyOf: R -> string, r: R)
    ensures FirstByKey(records + [r], keyOf) ==
      if keyOf(r) in Keys(records, keyOf) then FirstByKey(records, keyOf) else FirstByKey(records, keyOf) + [r]
  {
    assert (records + [r])[..|records|] == records;
  }

  /** A key has a non-empty bucket exactly when it is one of the index keys. */
  lemma {:induction false} BucketEmptyIffAbsent<R>(records: seq<R>, keyOf: R -> string, k: string)
    ensures Bucket(records, keyOf, k) == [] <==> k !in Keys(records, keyOf)
  {
    if records != [] {
      var init := records[..|records| - 1];
      var last := records[|records| - 1];
      BucketEmptyIffAbsent(init, keyOf, k);
      assert records == init + [last];
      BucketSnoc(init, keyOf, last, k);
      KeysSnoc(init, keyOf, last);
    }
  }

  /** Every record lands in the bucket of its own key (and, by `Bucket`'s contract, in no other). */
  lemma {:induction false} RecordInOwnBucket<R>(records: seq<R>, keyOf: R -> string, i: nat)
    requires i < |records|
    ensures records[i] in Bucket(records, keyOf, keyOf(records[i]))
  {
    var init := records[..|records| - 1];
    var last := records[|records| - 1];
    assert records == init + [last];
    BucketSnoc(init, keyOf, last, keyOf(records[i]));
    if i < |records| - 1 {
      RecordInOwnBucket(init, keyOf, i);
    }
  }

  /** After indexing, `get` returns a key's bucket, and the empty list for a key never seen. */
  lemma GetIsBucket<R>(index: Index<R>, records: seq<R>, keyOf: R -> string, k: string)
    requires Indexes(index, records, keyOf)
    ensures index.Get(k) == Bucket(records, keyOf, k)
  {
    BucketEmptyIffAbsent(records, keyOf, k);
  }

  /** The total size of the buckets of `ks`. */
  function SizeSum<R>(records: seq<R>, keyOf: R -> string, ks: seq<string>): nat {
    if ks == [] then 0 else |Bucket(records, keyOf, ks[0])| + SizeSum(records, keyOf, ks[1..])
  }

  lemma {:induction false} SizeSumSnocKey<R>(records: seq<R>, keyOf: R -> string, ks: seq<string>, k: string)
    ensures SizeSum(records, keyOf, ks + [k]) == SizeSum(records, keyOf, ks) + |Bucket(records, keyOf, k)|
  {
    if ks != [] {
      assert (ks + [k])[1..] == ks[1..] + [k];
      SizeSumSnocKey(records, keyOf, ks[1..], k);
    }
  }

  lemma {:induction false} SizeSumSnocRecord<R>(records: seq<R>, keyOf: R -> string, r: R, ks: seq<string>)
    requires Distinct(ks)
    ensures SizeSum(records + [r], keyOf, ks) == SizeSum(records, keyOf, ks) + (if keyOf(r) in ks then 1 else 0)
  {
    if ks != [] {
      BucketSnoc(records, keyOf, r, ks[0]);
      assert Distinct(ks[1..]);
      SizeSumSnocRecord(records, keyOf, r, ks[1..]);
      assert keyOf(r) in ks <==> keyOf(r) == ks[0] || keyOf(r) in ks[1..];
    }
  }

  /** The buckets partition the input: their sizes add up to the number of records. */
  lemma {:induction false} BucketSizesSum<R>(records: seq<R>, keyOf: R -> string)
    ensures SizeSum(records, keyOf, Keys(records, keyOf)) == |records|
  {
    if records != [] {
      var init := records[..|records| - 1];
      var last := records[|records| - 1];
      assert records == init + [last];
      BucketSizesSum(init, keyOf);
      KeysSnoc(init, keyOf, last);
      SizeSumSnocRecord(init, keyOf, last, Keys(init, keyOf));
      if keyOf(last) !in Keys(init, keyOf) {
        SizeSumSnocKey(records, keyOf, Keys(init, keyOf), keyOf(last));
        BucketSnoc(init, keyOf, last, keyOf(last));
        BucketEmptyIffAbsent(init, keyOf, keyOf(last));
      }
    }
  }

  lemma {:induction false} FirstByKeyLength<R>(records: seq<R>, keyOf: R -> string)
    ensures |FirstByKey(records, keyOf)| == |Keys(records, keyOf)|
  {
    if records != [] {
      var init := records[..|records| - 1];
      assert records == init + [records[|records| - 1]];
      FirstByKeyLength(init, keyOf);
      KeysSnoc(init, keyOf, records[|records| - 1]);
      FirstByKeySnoc(init, keyOf, records[|records| - 1]);
    }
  }

  /** The j-th first record is the head of the bucket of the j-th key. */
  lemma {:induction false} FirstByKeyMeaning<R>(records: seq<R>, keyOf: R -> string)
    ensures |FirstByKey(records, keyOf)| == |Keys(records, keyOf)|
    ensures forall j :: 0 <= j < |Keys(records, keyOf)| ==>
      && Bucket(records, keyOf, Keys(records, keyOf)[j]) != []
      && FirstByKey(records, keyOf)[j] == Bucket(records, keyOf, Keys(records, keyOf)[j])[0]
  {
    if records != [] {
      var init := records[..|records| - 1];
      var last := records[|records| - 1];
      assert records == init + [last];
      FirstByKeyMeaning(init, keyOf);
      KeysSnoc(init, keyOf, last);
      FirstByKeySnoc(init, keyOf, last);
      var ks := Keys(records, keyOf);
      forall j | 0 <= j < |ks|
        ensures Bucket(records, keyOf, ks[j]) != []
        ensures FirstByKey(records, keyOf)[j] == Bucket(records, keyOf, ks[j])[0]
      {
        BucketSnoc(init, keyOf, last, ks[j]);
        if j == |Keys(init, keyOf)| {
          BucketEmptyIffAbsent(init, keyOf, ks[j]);
        }
      }
    }
  }

  /** The first record of the j-th key has that key and heads its bucket. */
  lemma FirstByKeyAt<R>(records: seq<R>, keyOf: R -> string, j: nat)
    requires j < |Keys(records, keyOf)|
    ensures j < |FirstByKey(records, keyOf)|
    ensures Bucket(records, keyOf, Keys(records, keyOf)[j]) != []
    ensures FirstByKey(records, keyOf)[j] == Bucket(records, keyOf, Keys(records, keyOf)[j])[0]
    ensures keyOf(FirstByKey(records, keyOf)[j]) == Keys(records, keyOf)[j]
  {
    FirstByKeyMeaning(records, keyOf);
  }

  // ---------------------------------------------------------------------------
  // Keys of a concatenation, and the first records of the keys not yet seen
  // ---------------------------------------------------------------------------

  /** The keys of `ks` that are not in `skip`, in order. */
  function Without(ks: seq<string>, skip: seq<string>): (r: seq<string>)
    ensures forall k :: k in r <==> k in ks && k !in skip
  {
    if ks == [] then []
    else
      var init := ks[..|ks| - 1];
      assert ks == init + [ks[|ks| - 1]];
      Without(init, skip) + (if ks[|ks| - 1] in skip then [] else [ks[|ks| - 1]])
  }

  /** The first records of `firsts` whose key is not in `skip`, in order. */
  function Fresh<R>(firsts: seq<R>, keyOf: R -> string, skip: seq<string>): seq<R> {
    if firsts == [] then []
    else
      var last := firsts[|firsts| - 1];
      Fresh(firsts[..|firsts| - 1], keyOf, skip) + (if keyOf(last) in skip then [] else [last])
  }

  /** A key is one of the index keys exactly when some record has it. */
  lemma {:induction false} KeysMembership<R>(records: seq<R>, keyOf: R -> string, k: string)
    ensures k in Keys(records, keyOf) <==> exists i :: 0 <= i < |records| && keyOf(records[i]) == k
  {
    if records != [] {
      var init := records[..|records| - 1];
      var last := records[|records| - 1];
      assert records == init + [last];
      KeysMembership(init, keyOf, k);
      KeysSnoc(init, keyOf, last);
      if k in Keys(init, keyOf) {
        var i :| 0 <= i < |init| && keyOf(init[i]) == k;
        assert keyOf(records[i]) == k;
      }
    }
  }

  /** `a + b` split before the last element of `b`. */
  lemma SplitLast<R>(a: seq<R>, b: seq<R>)
    requires b != []
    ensures b == b[..|b| - 1] + [b[|b| - 1]]
    ensures a + b == (a + b[..|b| - 1]) + [b[|b| - 1]]
  {
  }

  /** One more record on the right of `KeysAppend`. */
  lemma KeysAppendSnoc<R>(a: seq<R>, init: seq<R>, r: R, keyOf: R -> string)
    requires Keys(a + init, keyOf) == Keys(a, keyOf) + Without(Keys(init, keyOf), Keys(a, keyOf))
    ensures Keys(a + (init + [r]), keyOf) == Keys(a, keyOf) + Without(Keys(init + [r], keyOf), Keys(a, keyOf))
  {
    var ka, ki, kr := Keys(a, keyOf), Keys(init, keyOf), keyOf(r);
    var w := Without(ki, ka);
    Text.AppendAssoc(a, init, [r]);
    KeysSnoc(a + init, keyOf, r);
    KeysSnoc(init, keyOf, r);
    WithoutSnoc(ki, ka, kr);
    if kr in ki {
      assert kr in ka || kr in w;
      assert kr in ka + w;
      assert Keys(init + [r], keyOf) == ki;
      assert Keys(a + (init + [r]), keyOf) == ka + w;
    } else if kr in ka {
      assert kr in ka + w;
      assert Keys(init + [r], keyOf) == ki + [kr];
      assert Without(ki + [kr], ka) == w + [];
      assert w + [] == w;
      assert Keys(a + (init + [r]), keyOf) == ka + w;
    } else {
      assert kr !in w;
      assert kr !in ka + w;
      assert Keys(init + [r], keyOf) == ki + [kr];
      assert Without(ki + [kr], ka) == w + [kr];
      assert Keys(a + (init + [r]), keyOf) == (ka + w) + [kr];
      Text.AppendAssoc(ka, w, [kr]);
    }
  }

  /** The keys of `a + b` are those of `a`, then the keys of `b` that `a` does not have, each in first-seen order. */
  lemma {:induction false} KeysAppend<R>(a: seq<R>, b: seq<R>, keyOf: R -> string)
    ensures Keys(a + b, keyOf) == Keys(a, keyOf) + Without(Keys(b, keyOf), Keys(a, keyOf))
  {
    if b == [] {
      assert a + b == a;
    } else {
      var init := b[..|b| - 1];
      SplitLast(a, b);
      KeysAppend(a, init, keyOf);
      KeysAppendSnoc(a, init, b[|b| - 1], keyOf);
    }
  }

  lemma FreshSnoc<R>(firsts: seq<R>, keyOf: R -> string, skip: seq<string>, r: R)
    ensures Fresh(firsts + [r], keyOf, skip) == Fresh(firsts, keyOf, skip) + (if keyOf(r) in skip then [] else [r])
  {
    assert (firsts + [r])[..|firsts|] == firsts;
  }

  lemma WithoutSnoc(ks: seq<string>, skip: seq<string>, k: string)
    ensures Without(ks + [k], skip) == Without(ks, skip) + (if k in skip then [] else [k])
  {
    assert (ks + [k])[..|ks|] == ks;
  }

  /**
   * Skipping the keys in `skip`, the first records that remain are one per remaining key, in
   * first-seen order, each heading its bucket.
   */
  lemma {:induction false} FreshFirsts<R>(records: seq<R>, keyOf: R -> string, skip: seq<string>)
    ensures |Fresh(FirstByKey(records, keyOf), keyOf, skip)| == |Without(Keys(records, keyOf), skip)|
    ensures forall j :: 0 <= j < |Without(Keys(records, keyOf), skip)| ==>
      var k := Without(Keys(records, keyOf), skip)[j];
      && Bucket(records, keyOf, k) != []
      && Fresh(FirstByKey(records, keyOf), keyOf, skip)[j] == Bucket(records, keyOf, k)[0]
  {
    if records != [] {
      var init := records[..|records| - 1];
      SplitLast([], records);
      FreshFirsts(init, keyOf, skip);
      FreshFirstsSnoc(init, records[|records| - 1], keyOf, skip);
    }
  }

  /** One more record keeps the first records outside `skip` at the heads of their buckets. */
  lemma FreshFirstsSnoc<R>(init: seq<R>, last: R, keyOf: R -> string, skip: seq<string>)
    requires |Fresh(FirstByKey(init, keyOf), keyOf, skip)| == |Without(Keys(init, keyOf), skip)|
    requires forall j :: 0 <= j < |Without(Keys(init, keyOf), skip)| ==>
      var k := Without(Keys(init, keyOf), skip)[j];
      && Bucket(init, keyOf, k) != []
      && Fresh(FirstByKey(init, keyOf), keyOf, skip)[j] == Bucket(init, keyOf, k)[0]
    ensures |Fresh(FirstByKey(init + [last], keyOf), keyOf, skip)| == |Without(Keys(init + [last], keyOf), skip)|
    ensures forall j :: 0 <= j < |Without(Keys(init + [last], keyOf), skip)| ==>
      var k := Without(Keys(init + [last], keyOf), skip)[j];
      && Bucket(init + [last], keyOf, k) != []
      && Fresh(FirstByKey(init + [last], keyOf), keyOf, skip)[j] == Bucket(init + [last], keyOf, k)[0]
  {
    var records := init + [last];
    var kl := keyOf(last);
    var ki := Keys(init, keyOf);
    var w0, f0 := Without(ki, skip), Fresh(FirstByKey(init, keyOf), keyOf, skip);
    var w, f := Without(Keys(records, keyOf), skip), Fresh(FirstByKey(records, keyOf), keyOf, skip);
    KeysSnoc(init, keyOf, last);
    FirstByKeySnoc(init, keyOf, last);
    if kl in ki {
      assert w == w0 && f == f0;
    } else {
      WithoutSnoc(ki, skip, kl);
      FreshSnoc(FirstByKey(init, keyOf), keyOf, skip, last);
      BucketEmptyIffAbsent(init, keyOf, kl);
      if kl in skip {
        assert w == w0 + [] && f == f0 + [];
        assert w == w0 && f == f0;
      } else {
        assert w == w0 + [kl] && f == f0 + [last];
      }
    }
    forall j | 0 <= j < |w|
      ensures Bucket(records, keyOf, w[j]) != []
      ensures f[j] == Bucket(records, keyOf, w[j])[0]
    {
      BucketSnoc(init, keyOf, last, w[j]);
      if j < |w0| {
        assert w[j] == w0[j] && f[j] == f0[j];
      } else {
        assert w[j] == kl && f[j] == last;
      }
    }
  }

  /** The `j`-th first record outside `skip` heads the bucket of the `j`-th key outside `skip`. */
  lemma FreshFirstsAt<R>(records: seq<R>, keyOf: R -> string, skip: seq<string>, j: nat)
    requires j < |Without(Keys(records, keyOf), skip)|
    ensures j < |Fresh(FirstByKey(records, keyOf), keyOf, skip)|
    ensures Bucket(records, keyOf, Without(Keys(records, keyOf), skip)[j]) != []
    ensures Fresh(FirstByKey(records, keyOf), keyOf, skip)[j] ==
      Bucket(records, keyOf, Without(Keys(records, keyOf), skip)[j])[0]
  {
    FreshFirsts(records, keyOf, skip);
  }
}
