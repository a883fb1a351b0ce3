/**
  * radish/splitter.py: the round-robin sharding of the changed paths across parallel
  * job agents.
  */
module Splitter {
  import opened Wrappers
  import Text

  /** An argument of `split` as Python receives it: missing (None), an int, or a string. */
  datatype Arg = Absent | Int(i: int) | Str(s: string)

  /** The exceptions `split` can raise. */
  datatype SplitError = ValueError(literal: string) | ZeroDivisionError | IndexError

  /** The three shapes `split` returns: its input itself, the list of buckets, or one bucket. */
  datatype Shards<T> = Unsplit(items: seq<T>) | Buckets(buckets: seq<seq<T>>) | Bucket(bucket: seq<T>)

  /** Python truthiness of an argument: None, 0 and the empty string are falsy. */
  predicate Truthy(a: Arg) {
    match a
    case Absent => false
    case Int(i) => i != 0
    case Str(s) => s != ""
  }

  /** `_default_int(value, default)`: the default for a falsy value, otherwise `int(value)`. */
  function DefaultInt(value: Arg, default: Option<int>): (r: Result<Option<int>, SplitError>)
    ensures !Truthy(value) ==> r == Success(default)
    ensures value.Int? && value.i != 0 ==> r == Success(Some(value.i))
    ensures value.Str? && value.s != "" ==> (r.Failure? <==> Text.ParseInt(value.s).None?)
    ensures value.Str? && value.s != "" && r.Success? ==> r == Success(Text.ParseInt(value.s))
    ensures r.Failure? ==> value.Str? && r.error == ValueError(value.s)
    ensures Truthy(value) && r.Success? ==> r.value.Some?
    ensures default.Some? && r.Success? ==> r.value.Some?
  {
    match value
    case Absent => Success(default)
    case Int(i) => if i == 0 then Success(default) else Success(Some(i))
    case Str(s) =>
      if s == "" then Success(default)
      else match Text.ParseInt(s)
        case Some(n) => Success(Some(n))
        case None => Failure(ValueError(s))
  }

  /**
    * A numeric string is coerced to the int it spells, so it behaves as that int; the one
    * exception is zero, since the string "0" is truthy while the int 0 is not.
    */
  lemma {:induction false} DefaultIntCoerces(n: int, default: Option<int>)
    ensures n != 0 ==> DefaultInt(Str(Text.IntToString(n)), default) == DefaultInt(Int(n), default)
    ensures DefaultInt(Str(Text.IntToString(n)), default) == Success(Some(n))
    ensures !Truthy(Int(0)) && DefaultInt(Int(0), default) == Success(default)
  {
    Text.ParseIntToString(n);
  }

  /**
    * Bucket `j` of the round-robin split of `items` into `n` buckets, built as the loop in
    * `split_consistently` builds it: item `i` is appended to bucket `i % n`.
    */
  function BucketOf<T>(items: seq<T>, n: nat, j: nat): (b: seq<T>)
    requires n > 0
    ensures |b| <= |items|
  {
    if items == [] then []
    else
      var last := |items| - 1;
      BucketOf(items[..last], n, j) + (if last % n == j then [items[last]] else [])
  }

  /** All `n` buckets. */
  function RoundRobin<T>(items: seq<T>, n: nat): (bs: seq<seq<T>>)
    requires n > 0
    ensures |bs| == n
  {
    seq(n, j requires 0 <= j < n => BucketOf(items, n, j))
  }

  /**
    * What `split_consistently(items, n)` returns or raises. For `n <= 0`, `range(0, n)` is
    * empty, so the first item's `divmod` raises ZeroDivisionError (n == 0) or its bucket
    * lookup raises IndexError (n < 0, since `divmod(0, n)` gives bucket 0).
    */
  function Partition<T>(items: seq<T>, n: int): (r: Result<seq<seq<T>>, SplitError>)
    ensures r.Failure? <==> n <= 0 && items != []
    ensures r.Failure? ==> r.error == (if n == 0 then ZeroDivisionError else IndexError)
    ensures r.Success? ==> |r.value| == (if n > 0 then n else 0)
  {
    if n > 0 then Success(RoundRobin(items, n))
    else if items == [] then Success([])
    else if n == 0 then Failure(ZeroDivisionError)
    else Failure(IndexError)
  }

  /** `split_consistently`: one empty list per bucket, then one append per item. */
  method SplitConsistently<T>(items: seq<T>, n: int) returns (r: Result<seq<seq<T>>, SplitError>)
    ensures r == Partition(items, n)
  {
    if n <= 0 {
      if items == [] {
        return Success([]);
      }
      return if n == 0 then Failure(ZeroDivisionError) else Failure(IndexError);
    }
    var buckets: seq<seq<T>> := seq(n, _ => []);
    for i := 0 to |items|
      invariant |buckets| == n
      invariant forall j :: 0 <= j < n ==> buckets[j] == BucketOf(items[..i], n, j)
    {
      var j := i % n;
      assert items[..i + 1][..i] == items[..i];
      buckets := buckets[j := buckets[j] + [items[i]]];
    }
    assert items[..|items|] == items;
    assert buckets == RoundRobin(items, n);
    return Success(buckets);
  }

  /** `splits[index]` with Python's indexing: negative indices count from the end. */
  function PyIndex<T>(xs: seq<T>, index: int): (r: Result<T, SplitError>)
    ensures r.Success? <==> -|xs| <= index < |xs|
    ensures r.Failure? ==> r.error == IndexError
    ensures 0 <= index < |xs| ==> r == Success(xs[index])
    ensures -|xs| <= index < 0 ==> r == Success(xs[|xs| + index])
  {
    if 0 <= index < |xs| then Success(xs[index])
    else if -|xs| <= index < 0 then Success(xs[|xs| + index])
    else Failure(IndexError)
  }

  /**
    * `split(splittable, splits, index)` as written: both arguments are coerced first; one
    * split returns the input itself; otherwise a truthy index selects one bucket and a
    * falsy one (None or 0) returns all of them.
    */
  function Split<T>(items: seq<T>, splits: Arg, index: Arg): (r: Result<Shards<T>, SplitError>)
    ensures r.Success? && r.value.Unsplit? ==> r.value.items == items
    ensures r.Success? && r.value.Bucket? ==> Truthy(index)
    ensures !Truthy(splits) && DefaultInt(index, None).Success? ==> r == Success(Unsplit(items))
  {
    SplitCoerced(items, DefaultInt(splits, Some(1)), DefaultInt(index, None))
  }

  /** The body of `split` once its two arguments have been coerced (or have failed to be). */
  function SplitCoerced<T>(items: seq<T>, splits: Result<Option<int>, SplitError>, index: Result<Option<int>, SplitError>)
    : Result<Shards<T>, SplitError>
    requires splits.Success? ==> splits.value.Some?
  {
    var n :- splits;
    var idx :- index;
    if n.value == 1 then Success(Unsplit(items))
    else
      var buckets :- Partition(items, n.value);
      if idx.Some? && idx.value != 0 then
        var b :- PyIndex(buckets, idx.value);
        Success(Bucket(b))
      else Success(Buckets(buckets))
  }

  /**
    * The index coercion the intended `split` needs: only a missing index (None, or the
    * empty string an unset option yields) means "no index"; every number, 0 included, is kept.
    */
  function IndexArg(index: Arg): (r: Result<Option<int>, SplitError>)
    ensures index.Int? ==> r == Success(Some(index.i))
    ensures Truthy(index) ==> r == DefaultInt(index, None)
  {
    match index
    case Absent => Success(None)
    case Int(i) => Success(Some(i))
    case Str(s) => if s == "" then Success(None) else DefaultInt(index, None)
  }

  /**
    * `split` as evidently intended: an index that is given, 0 included, selects its bucket;
    * only a missing index returns all buckets.
    */
  function SplitIntended<T>(items: seq<T>, splits: Arg, index: Arg): (r: Result<Shards<T>, SplitError>)
    ensures r.Success? && r.value.Unsplit? ==> r.value.items == items
    ensures r.Success? && r.value.Buckets? ==> index == Absent || index == Str("")
    ensures !Truthy(splits) && IndexArg(index).Success? ==> r == Success(Unsplit(items))
  {
    var n :- DefaultInt(splits, Some(1));
    var idx :- IndexArg(index);
    if n.value == 1 then Success(Unsplit(items))
    else
      var buckets :- Partition(items, n.value);
      if idx.Some? then
        var b :- PyIndex(buckets, idx.value);
        Success(Bucket(b))
      else Success(Buckets(buckets))
  }

  // Arithmetic on consecutive positions.

  lemma DivModSplit(m: int, n: int)
    requires n > 0
    ensures m == m / n * n + m % n
  {
  }

  lemma {:induction false} MulAtLeast(d: nat, n: nat)
    requires d >= 1
    ensures d * n >= n
  {
    if d > 1 {
      MulAtLeast(d - 1, n);
      assert d * n == (d - 1) * n + n;
    }
  }

  lemma DivModUnique(a: int, n: int, q: int, r: int)
    requires n > 0 && 0 <= r < n && a == q * n + r
    ensures a / n == q && a % n == r
  {
    var q', r' := a / n, a % n;
    assert a == q' * n + r';
    if q > q' {
      MulAtLeast(q - q', n);
    } else if q < q' {
      MulAtLeast(q' - q, n);
    }
  }

  lemma DivModNext(m: nat, n: nat)
    requires n > 0
    ensures m % n == n - 1 ==> (m + 1) / n == m / n + 1 && (m + 1) % n == 0
    ensures m % n < n - 1 ==> (m + 1) / n == m / n && (m + 1) % n == m % n + 1
  {
    if m % n == n - 1 {
      DivModUnique(m + 1, n, m / n + 1, 0);
    } else {
      DivModUnique(m + 1, n, m / n, m % n + 1);
    }
  }

  // The properties of the round-robin split.

  /** Bucket `j` holds one item for every full round, plus one if `j` is before the remainder. */
  lemma {:induction false} BucketLength<T>(items: seq<T>, n: nat, j: nat)
    requires n > 0 && j < n
    ensures |BucketOf(items, n, j)| == |items| / n + (if j < |items| % n then 1 else 0)
  {
    if items != [] {
      var m := |items| - 1;
      BucketLength(items[..m], n, j);
      DivModNext(m, n);
    }
  }

  /** Bucket sizes differ by at most one. */
  lemma {:induction false} BucketsBalanced<T>(items: seq<T>, n: nat, j: nat, k: nat)
    requires n > 0 && j < n && k < n
    ensures |BucketOf(items, n, j)| <= |BucketOf(items, n, k)| + 1
  {
    BucketLength(items, n, j);
    BucketLength(items, n, k);
  }

  /** The `k`-th element of bucket `j` is the input item at position `j + k * n`. */
  lemma {:induction false} BucketAt<T>(items: seq<T>, n: nat, j: nat, k: nat)
    requires n > 0 && j < n && k < |BucketOf(items, n, j)|
    ensures j + k * n < |items| && BucketOf(items, n, j)[k] == items[j + k * n]
  {
    assert items != [];
    var m := |items| - 1;
    var prefix := BucketOf(items[..m], n, j);
    assert BucketOf(items, n, j) == prefix + (if m % n == j then [items[m]] else []);
    if k < |prefix| {
      BucketAt(items[..m], n, j, k);
    } else {
      BucketLength(items[..m], n, j);
      assert m % n == j && k == m / n;
      DivModSplit(m, n);
    }
  }

  /** Input item `i` sits in bucket `i % n` at position `i / n`: relative order is kept. */
  lemma {:induction false} InBucket<T>(items: seq<T>, n: nat, i: nat)
    requires n > 0 && i < |items|
    ensures i / n < |BucketOf(items, n, i % n)| && BucketOf(items, n, i % n)[i / n] == items[i]
  {
    var m := |items| - 1;
    if i == m {
      BucketLength(items[..m], n, i % n);
    } else {
      InBucket(items[..m], n, i);
    }
  }

  /** The items of all buckets together, counted with multiplicity. */
  ghost function Gathered<T>(bs: seq<seq<T>>): multiset<T>
  {
    if bs == [] then multiset{} else Gathered(bs[..|bs| - 1]) + multiset(bs[|bs| - 1])
  }

  /** The number of items in all buckets together. */
  function TotalLength<T>(bs: seq<seq<T>>): nat
  {
    if bs == [] then 0 else TotalLength(bs[..|bs| - 1]) + |bs[|bs| - 1]|
  }

  lemma {:induction false} GatheredEmpties<T>(bs: seq<seq<T>>)
    requires forall j :: 0 <= j < |bs| ==> bs[j] == []
    ensures Gathered(bs) == multiset{} && TotalLength(bs) == 0
  {
    if bs != [] {
      GatheredEmpties(bs[..|bs| - 1]);
    }
  }

  lemma {:induction false} GatheredAppend<T>(bs: seq<seq<T>>, j: nat, x: T)
    requires j < |bs|
    ensures Gathered(bs[j := bs[j] + [x]]) == Gathered(bs) + multiset{x}
    ensures TotalLength(bs[j := bs[j] + [x]]) == TotalLength(bs) + 1
  {
    var last := |bs| - 1;
    var bs' := bs[j := bs[j] + [x]];
    if j == last {
      assert bs'[..last] == bs[..last];
    } else {
      assert bs'[..last] == bs[..last][j := bs[j] + [x]];
      GatheredAppend(bs[..last], j, x);
    }
  }

  /** Splitting one more item appends it to bucket `m % n` and leaves the others alone. */
  lemma {:induction false} RoundRobinStep<T>(items: seq<T>, n: nat)
    requires n > 0 && items != []
    ensures var m := |items| - 1;
            var prev := RoundRobin(items[..m], n);
            RoundRobin(items, n) == prev[m % n := prev[m % n] + [items[m]]]
  {
    var m := |items| - 1;
    var prev := RoundRobin(items[..m], n);
    var next := prev[m % n := prev[m % n] + [items[m]]];
    forall j | 0 <= j < n
      ensures RoundRobin(items, n)[j] == next[j]
    {
      assert RoundRobin(items, n)[j] == BucketOf(items, n, j);
      assert prev[j] == BucketOf(items[..m], n, j);
    }
  }

  /**
    * Every input item lands in exactly one bucket: the buckets together hold exactly the
    * input, with multiplicity, and their lengths sum to the input's length.
    */
  lemma {:induction false} RoundRobinGathered<T>(items: seq<T>, n: nat)
    requires n > 0
    ensures Gathered(RoundRobin(items, n)) == multiset(items)
    ensures TotalLength(RoundRobin(items, n)) == |items|
  {
    if items == [] {
      GatheredEmpties(RoundRobin(items, n));
    } else {
      var m := |items| - 1;
      var prev := RoundRobin(items[..m], n);
      RoundRobinGathered(items[..m], n);
      RoundRobinStep(items, n);
      GatheredAppend(prev, m % n, items[m]);
      assert RoundRobin(items, n) == prev[m % n := prev[m % n] + [items[m]]];
      assert multiset(items) == multiset(items[..m]) + multiset{items[m]} by {
        assert items == items[..m] + [items[m]];
      }
    }
  }

  // The properties of `split` itself.

  /** With `splits` missing or falsy the input comes back unchanged, whatever it is. */
  lemma SplitDefaultsToOne<T>(items: seq<T>, splits: Arg, index: Arg)
    requires !Truthy(splits) || splits == Int(1)
    requires index.Absent? || index.Int?
    ensures Split(items, splits, index) == Success(Unsplit(items))
  {
  }

  /**
    * More than one split with a falsy index (missing, or 0) gives exactly `n` buckets, the
    * round-robin split, even for empty input.
    */
  lemma SplitAllBuckets<T>(items: seq<T>, n: int, index: Arg)
    requires n > 1
    requires index == Absent || index == Int(0)
    ensures Split(items, Int(n), index) == Success(Buckets(RoundRobin(items, n)))
    ensures |RoundRobin(items, n)| == n
  {
  }

  /** A truthy index in range returns only that bucket, negative indices counting from the end. */
  lemma SplitOneBucket<T>(items: seq<T>, n: int, i: int)
    requires n > 1 && i != 0 && -n <= i < n
    ensures Split(items, Int(n), Int(i)) == Success(Bucket(BucketOf(items, n, if i < 0 then n + i else i)))
  {
  }

  /** An index outside the buckets raises IndexError. */
  lemma SplitIndexOutOfRange<T>(items: seq<T>, n: int, i: int)
    requires n > 1 && (i >= n || i < -n)
    ensures Split(items, Int(n), Int(i)) == Failure(IndexError)
  {
  }

  /** Numeric strings give the same result as the ints they spell. */
  lemma SplitCoercesStrings<T>(items: seq<T>, n: int, i: int)
    requires n != 0 && i != 0
    ensures Split(items, Str(Text.IntToString(n)), Str(Text.IntToString(i))) == Split(items, Int(n), Int(i))
    ensures Split(items, Str(Text.IntToString(n)), Absent) == Split(items, Int(n), Absent)
  {
    DefaultIntCoerces(n, Some(1));
    DefaultIntCoerces(i, None);
    SplitSeesCoercedArgs(items, Str(Text.IntToString(n)), Int(n), Str(Text.IntToString(i)), Int(i));
    SplitSeesCoercedArgs(items, Str(Text.IntToString(n)), Int(n), Absent, Absent);
  }

  /** `split` depends on its arguments only through their coerced values. */
  lemma SplitSeesCoercedArgs<T>(items: seq<T>, s1: Arg, s2: Arg, i1: Arg, i2: Arg)
    requires DefaultInt(s1, Some(1)) == DefaultInt(s2, Some(1))
    requires DefaultInt(i1, None) == DefaultInt(i2, None)
    ensures Split(items, s1, i1) == Split(items, s2, i2)
  {
  }

  /**
    * The string "0" is truthy, so it is coerced rather than defaulted: `splits="0"` raises
    * ZeroDivisionError on any non-empty input, where `splits=0` returns the input.
    */
  lemma SplitZeroString<T>(items: seq<T>)
    requires items != []
    ensures Split(items, Str("0"), Absent) == Failure(ZeroDivisionError)
    ensures Split(items, Int(0), Absent) == Success(Unsplit(items))
  {
    DefaultIntCoerces(0, Some(1));
    assert Text.IntToString(0) == "0";
  }

  /** An argument that is not a number raises ValueError before anything is split. */
  lemma SplitRejectsNonNumbers<T>(items: seq<T>)
    ensures Split(items, Str("two"), Absent) == Failure(ValueError("two"))
  {
    assert "two"[0] == 't' && "two"[2] == 'o';
    Text.ParseNotANumber("two");
    assert DefaultInt(Str("two"), Some(1)) == Failure(ValueError("two"));
  }

  /** tests/test_splitter.py: three items over two jobs. */
  lemma SplitThreeInTwo()
    ensures Split(['1', '2', '3'], Int(2), Absent) == Success(Buckets([['1', '3'], ['2']]))
    ensures Split(['1', '2', '3'], Int(2), Int(1)) == Success(Bucket(['2']))
    ensures Split<char>([], Int(2), Absent) == Success(Buckets([[], []]))
  {
    var items := ['1', '2', '3'];
    assert items[..2] == ['1', '2'] && items[..1] == ['1'];
    assert ['1', '2'][..1] == ['1'] && ['1'][..0] == [];
    assert BucketOf(['1'], 2, 0) == ['1'] && BucketOf(['1'], 2, 1) == [];
    assert BucketOf(['1', '2'], 2, 0) == ['1'] && BucketOf(['1', '2'], 2, 1) == ['2'];
    assert BucketOf(items, 2, 0) == ['1', '3'] && BucketOf(items, 2, 1) == ['2'];
    assert RoundRobin(items, 2) == [['1', '3'], ['2']];
    var none: seq<char> := [];
    assert BucketOf(none, 2, 0) == [] && BucketOf(none, 2, 1) == [];
    assert RoundRobin(none, 2) == [[], []];
  }

  /**
    * The index-0 defect, as written: job 0 of two gets every bucket (a list of lists)
    * instead of its own bucket.
    */
  lemma SplitIndexZeroAsWritten()
    ensures Split(['1', '2', '3'], Int(2), Int(0)) == Success(Buckets([['1', '3'], ['2']]))
    ensures SplitIntended(['1', '2', '3'], Int(2), Int(0)) == Success(Bucket(['1', '3']))
  {
    SplitThreeInTwo();
    assert RoundRobin(['1', '2', '3'], 2) == [['1', '3'], ['2']];
    assert PyIndex(RoundRobin(['1', '2', '3'], 2), 0) == Success(['1', '3']);
  }

  /** The corrected split: every index in range, 0 included, selects exactly its bucket. */
  lemma SplitIntendedSelects<T>(items: seq<T>, n: int, i: int)
    requires n > 1 && 0 <= i < n
    ensures SplitIntended(items, Int(n), Int(i)) == Success(Bucket(BucketOf(items, n, i)))
    ensures SplitIntended(items, Int(n), Absent) == Split(items, Int(n), Absent)
  {
  }
}
