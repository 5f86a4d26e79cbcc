/**
 The moving average of pkg/avg-sliding-window/sliding.go: points rounded into buckets, buckets in
 insertion order, running totals, and an eviction loop that stops at the first bucket still in
 the window.  Sums are exact reals; counts are 64-bit and wrap.
 */
module SlidingWindow {
  import opened Uint64
  import opened Durations

  /** A point offered to the window: its rounded time, its value, and whether it was inside the window then. */
  datatype Offer = Offer(key: Time, val: real, accepted: bool)

  datatype Bucket = Bucket(sum: real, qty: uint64)

  /** The accepted points whose rounded times lie in s: their sum and number. */
  function SumIn(h: seq<Offer>, s: set<Time>): real {
    if h == [] then 0.0
    else SumIn(h[..|h| - 1], s) + (var o := h[|h| - 1]; if o.accepted && o.key in s then o.val else 0.0)
  }

  function CountIn(h: seq<Offer>, s: set<Time>): nat {
    if h == [] then 0
    else CountIn(h[..|h| - 1], s) + (var o := h[|h| - 1]; if o.accepted && o.key in s then 1 else 0)
  }

  /** The naive recomputation: all points ever offered whose rounded times lie after lo, up to hi. */
  function NaiveSum(h: seq<Offer>, lo: Time, hi: Time): real {
    if h == [] then 0.0
    else NaiveSum(h[..|h| - 1], lo, hi) + (var o := h[|h| - 1]; if lo < o.key <= hi then o.val else 0.0)
  }

  function NaiveCount(h: seq<Offer>, lo: Time, hi: Time): nat {
    if h == [] then 0
    else NaiveCount(h[..|h| - 1], lo, hi) + (var o := h[|h| - 1]; if lo < o.key <= hi then 1 else 0)
  }

  lemma {:induction false} TotalsSplit(h: seq<Offer>, s: set<Time>, k: Time)
    requires k in s
    ensures SumIn(h, s) == SumIn(h, s - {k}) + SumIn(h, {k})
    ensures CountIn(h, s) == CountIn(h, s - {k}) + CountIn(h, {k})
  {
    if h == [] {
    } else {
      TotalsSplit(h[..|h| - 1], s, k);
    }
  }

  lemma {:induction false} TotalsOfNothing(h: seq<Offer>, s: set<Time>)
    requires forall o | o in h :: !(o.accepted && o.key in s)
    ensures SumIn(h, s) == 0.0 && CountIn(h, s) == 0
  {
    if h == [] {
    } else {
      assert h[|h| - 1] in h;
      TotalsOfNothing(h[..|h| - 1], s);
    }
  }

  /** Totals over a set that holds exactly the keys of the window are the naive totals. */
  lemma {:induction false} TotalsAreNaive(h: seq<Offer>, s: set<Time>, lo: Time, hi: Time)
    requires forall o | o in h :: lo < o.key <= hi <==> o.accepted && o.key in s
    ensures SumIn(h, s) == NaiveSum(h, lo, hi) && CountIn(h, s) == NaiveCount(h, lo, hi)
  {
    if h == [] {
    } else {
      assert h[|h| - 1] in h;
      TotalsAreNaive(h[..|h| - 1], s, lo, hi);
    }
  }

  lemma ExtendTotals(h: seq<Offer>, o: Offer, s: set<Time>)
    ensures SumIn(h + [o], s) == SumIn(h, s) + if o.accepted && o.key in s then o.val else 0.0
    ensures CountIn(h + [o], s) == CountIn(h, s) + if o.accepted && o.key in s then 1 else 0
  {
  }

  function BucketSum(keys: seq<Time>, buckets: map<Time, Bucket>): real
    requires forall i | 0 <= i < |keys| :: keys[i] in buckets
  {
    if keys == [] then 0.0 else BucketSum(keys[1..], buckets) + buckets[keys[0]].sum
  }

  /** The running sum is the sum over the stored buckets. */
  lemma {:induction false} TotalIsSumOfBuckets(h: seq<Offer>, keys: seq<Time>, buckets: map<Time, Bucket>)
    requires forall i, j | 0 <= i < j < |keys| :: keys[i] != keys[j]
    requires forall i | 0 <= i < |keys| :: keys[i] in buckets && buckets[keys[i]].sum == SumIn(h, {keys[i]})
    ensures BucketSum(keys, buckets) == SumIn(h, set k | k in keys)
  {
    var s := set k | k in keys;
    if keys == [] {
      TotalsOfNothing(h, s);
    } else {
      TotalIsSumOfBuckets(h, keys[1..], buckets);
      TotalsSplit(h, s, keys[0]);
      assert s - {keys[0]} == set k | k in keys[1..];
    }
  }

  // ---------------------------------------------------------------- what the window keeps

  predicate KeysMatch(keys: seq<Time>, buckets: map<Time, Bucket>) {
    && (forall i | 0 <= i < |keys| :: keys[i] in buckets)
    && (forall k | k in buckets :: k in keys)
    && (forall i, j | 0 <= i < j < |keys| :: keys[i] != keys[j])
  }

  predicate BucketsRight(h: seq<Offer>, buckets: map<Time, Bucket>) {
    forall k | k in buckets :: buckets[k] == Bucket(SumIn(h, {k}), Wrap(CountIn(h, {k})))
  }

  predicate TotalsRight(h: seq<Offer>, s: set<Time>, qty: uint64, sum: real) {
    sum == SumIn(h, s) && qty == Wrap(CountIn(h, s))
  }

  /** An accepted point without a bucket lies at or before `start`. */
  predicate NothingLost(h: seq<Offer>, s: set<Time>, start: Time) {
    forall o | o in h && o.accepted :: o.key in s || o.key <= start
  }

  /** Buckets in time order, and every refused point already too old. */
  predicate InClockOrder(h: seq<Offer>, keys: seq<Time>, start: Time, now: Time) {
    && (forall i, j | 0 <= i < j < |keys| :: keys[i] < keys[j])
    && (forall o | o in h :: o.key <= now && (o.accepted || o.key <= start))
  }

  /**
   Buckets and totals are those of the accepted points; a point without a bucket has left the
   window that begins at `start`; and as long as points come in clock order the buckets do too,
   and none was refused that is still to come into the window.
   */
  ghost predicate WindowInv(h: seq<Offer>, keys: seq<Time>, buckets: map<Time, Bucket>, qty: uint64, sum: real,
                            start: Time, now: Time, inOrder: bool) {
    && KeysMatch(keys, buckets)
    && BucketsRight(h, buckets)
    && TotalsRight(h, buckets.Keys, qty, sum)
    && NothingLost(h, buckets.Keys, start)
    && (forall k | k in buckets :: k <= now)
    && (inOrder ==> InClockOrder(h, keys, start, now))
  }

  /** Taking a bucket out takes its totals out. */
  lemma EvictionKeepsTotals(h: seq<Offer>, buckets: map<Time, Bucket>, k: Time, qty: uint64, sum: real)
    requires BucketsRight(h, buckets) && TotalsRight(h, buckets.Keys, qty, sum) && k in buckets
    ensures TotalsRight(h, buckets.Keys - {k}, Sub(qty, buckets[k].qty), sum - buckets[k].sum)
    ensures buckets.Keys == {k} ==> TotalsRight(h, buckets.Keys - {k}, 0, 0.0)
  {
    TotalsSplit(h, buckets.Keys, k);
    WrapCounts(CountIn(h, buckets.Keys), CountIn(h, {k}));
    if buckets.Keys == {k} {
      TotalsOfNothing(h, {});
      assert buckets.Keys - {k} == {};
    }
  }

  /** Putting an accepted point into its bucket adds it to the bucket and to the totals. */
  lemma InsertionKeepsTotals(h: seq<Offer>, buckets: map<Time, Bucket>, o: Offer, start: Time, qty: uint64, sum: real)
    requires BucketsRight(h, buckets) && TotalsRight(h, buckets.Keys, qty, sum)
    requires NothingLost(h, buckets.Keys, start) && o.accepted && o.key > start
    ensures
      var b := if o.key in buckets then buckets[o.key] else Bucket(0.0, 0);
      && BucketsRight(h + [o], buckets[o.key := Bucket(b.sum + o.val, Wrap(b.qty + 1))])
      && TotalsRight(h + [o], buckets.Keys + {o.key}, Wrap(qty + 1), sum + o.val)
  {
    var s := buckets.Keys + {o.key};
    if o.key in buckets {
      assert s == buckets.Keys;
    } else {
      assert s - {o.key} == buckets.Keys;
      TotalsOfNothing(h, {o.key});
      TotalsSplit(h, s, o.key);
    }
    ExtendTotals(h, o, s);
    WrapCounts(CountIn(h, s), 0);
    WrapCounts(CountIn(h, {o.key}), 0);
    forall k | k in s ensures SumIn(h + [o], {k}) == SumIn(h, {k}) + (if k == o.key then o.val else 0.0)
                           && CountIn(h + [o], {k}) == CountIn(h, {k}) + (if k == o.key then 1 else 0) {
      ExtendTotals(h, o, {k});
    }
  }

  lemma RefusalKeepsInv(h: seq<Offer>, keys: seq<Time>, buckets: map<Time, Bucket>, qty: uint64, sum: real,
                        start: Time, now: Time, inOrder: bool, o: Offer, ordered: bool)
    requires WindowInv(h, keys, buckets, qty, sum, start, now, inOrder)
    requires !o.accepted && (ordered ==> o.key <= start && o.key <= now)
    ensures WindowInv(h + [o], keys, buckets, qty, sum, start, now, inOrder && ordered)
  {
  }

  lemma InsertionKeepsInv(h: seq<Offer>, keys: seq<Time>, buckets: map<Time, Bucket>, qty: uint64, sum: real, inOrder: bool,
                          start: Time, now: Time, o: Offer, ordered: bool,
                          h': seq<Offer>, keys': seq<Time>, buckets': map<Time, Bucket>, qty': uint64, sum': real, inOrder': bool)
    requires WindowInv(h, keys, buckets, qty, sum, start, now, inOrder)
    requires o.accepted && start < o.key <= now && (ordered ==> forall k | k in buckets :: k <= o.key)
    requires
      var b := if o.key in buckets then buckets[o.key] else Bucket(0.0, 0);
      buckets' == buckets[o.key := Bucket(b.sum + o.val, Wrap(b.qty + 1))]
    requires keys' == (if o.key in buckets then keys else keys + [o.key]) && qty' == Wrap(qty + 1) && sum' == sum + o.val
    requires h' == h + [o] && inOrder' == (inOrder && ordered)
    ensures WindowInv(h', keys', buckets', qty', sum', start, now, inOrder')
  {
    InsertionKeepsTotals(h, buckets, o, start, qty, sum);
    assert buckets'.Keys == buckets.Keys + {o.key};
  }

  lemma KeySet(keys: seq<Time>, buckets: map<Time, Bucket>)
    requires KeysMatch(keys, buckets)
    ensures (set k | k in keys) == buckets.Keys
  {
    var s := set k | k in keys;
    forall k | k in s ensures k in buckets {
      var i :| 0 <= i < |keys| && keys[i] == k;
    }
    forall k | k in buckets.Keys ensures k in s {
      assert k in buckets && k in keys;
    }
    assert s == buckets.Keys;
  }

  lemma KeysAfterEviction(keys: seq<Time>, buckets: map<Time, Bucket>)
    requires KeysMatch(keys, buckets) && keys != []
    ensures KeysMatch(keys[1..], buckets - {keys[0]})
    ensures |keys| == 1 ==> buckets.Keys == {keys[0]}
  {
    assert keys == [keys[0]] + keys[1..];
    if |keys| == 1 {
      assert forall k | k in buckets :: k in keys;
    }
  }

  /** One accepted point, then Clear: the bucket is still there, and the totals are not its totals any more. */
  lemma ClearedTotalsAreWrong(key: Time, val: real)
    requires val != 0.0
    ensures
      var h, keys, buckets := [Offer(key, val, true)], [key], map[key := Bucket(val, 1)];
      && WindowInv(h, keys, buckets, 1, val, key - 1, key, true)
      && !WindowInv(h, keys, buckets, 0, 0.0, key - 1, key, true)
  {
    InsertionKeepsInv([], [], map[], 0, 0.0, true, key - 1, key, Offer(key, val, true), true,
                      [Offer(key, val, true)], [key], map[key := Bucket(val, 1)], 1, val, true);
    ExtendTotals([], Offer(key, val, true), {key});
    assert [] + [Offer(key, val, true)] == [Offer(key, val, true)];
    assert map[key := Bucket(val, 1)].Keys == {key};
  }

  class AvgSlidingWindow {
    const bucketSize: int
    const windowLength: int

    var keys: seq<Time>
    var buckets: map<Time, Bucket>
    var qty: uint64
    var sum: real

    /** Every point offered, the last clock reading, and whether points only came through Add. */
    ghost var offers: seq<Offer>
    ghost var clock: Time
    ghost var inOrder: bool

    function Now(now: Time): Time {
      Round(now, bucketSize)
    }

    function WindowStart(now: Time): Time {
      Now(now) - windowLength
    }

    predicate InWindow(key: Time, now: Time) {
      WindowStart(now) < key && key <= Now(now)
    }

    ghost predicate Valid()
      reads this
    {
      WindowInv(offers, keys, buckets, qty, sum, WindowStart(clock), Now(clock), inOrder)
    }

    /** NewSlidingWindow; zero options select one second and five minutes. */
    constructor (bucketSize: int, windowLength: int, now: Time)
      ensures Valid() && offers == [] && inOrder && clock == now
      ensures this.bucketSize == if bucketSize == 0 then 1_000_000_000 else bucketSize
      ensures this.windowLength == if windowLength == 0 then 300_000_000_000 else windowLength
    {
      this.bucketSize := if bucketSize == 0 then 1_000_000_000 else bucketSize;
      this.windowLength := if windowLength == 0 then 300_000_000_000 else windowLength;
      keys, buckets, qty, sum := [], map[], 0, 0.0;
      offers, clock, inOrder := [], now, true;
    }

    /** The clock moves on. */
    ghost method Tick(now: Time)
      requires Valid() && now >= clock
      modifies this`clock
      ensures Valid() && clock == now
    {
      RoundingIsMonotone(clock, now, bucketSize);
      clock := now;
    }

    /** advance: evict from the front until a bucket is still in the window. */
    method Advance(now: Time)
      requires Valid() && now >= clock
      modifies this`keys, this`buckets, this`qty, this`sum, this`clock
      ensures Valid() && clock == now
      ensures keys == [] || keys[0] > WindowStart(now)
      ensures forall k | k in old(buckets) && k > WindowStart(now) :: k in buckets
      ensures buckets.Keys <= old(buckets).Keys
    {
      Tick(now);
      EvictExpired(WindowStart(now));
    }

    method EvictExpired(windowStart: Time)
      requires Valid() && windowStart == WindowStart(clock)
      modifies this`keys, this`buckets, this`qty, this`sum
      ensures Valid()
      ensures keys == [] || keys[0] > windowStart
      ensures forall k | k in old(buckets) && k > windowStart :: k in buckets
      ensures buckets.Keys <= old(buckets).Keys
    {
      var all := keys;
      var i := 0;
      while i < |all| && all[i] <= windowStart
        invariant 0 <= i <= |all| && keys == all[i..]
        invariant Valid()
        invariant forall k | k in old(buckets) && k > windowStart :: k in buckets
        invariant buckets.Keys <= old(buckets).Keys
        decreases |all| - i
      {
        EvictFirst();
        i := i + 1;
      }
    }

    /** One turn of the eviction loop. */
    method EvictFirst()
      requires Valid() && keys != [] && keys[0] <= WindowStart(clock)
      modifies this`keys, this`buckets, this`qty, this`sum
      ensures Valid()
      ensures keys == old(keys)[1..] && buckets == old(buckets) - {old(keys)[0]}
    {
      var k := keys[0];
      var b := buckets[k];
      EvictionKeepsTotals(offers, buckets, k, qty, sum);
      ghost var s := buckets.Keys - {k};
      buckets := buckets - {k};
      assert buckets.Keys == s;
      KeysAfterEviction(keys, old(buckets));
      keys := keys[1..];
      if |keys| > 0 {
        qty := Sub(qty, b.qty);
        sum := sum - b.sum;
      } else {
        qty := 0;
        sum := 0.0;
      }
    }

    /** AddWithTime, with the clock readings of advance and of inWindow. */
    method AddWithTime(t: Time, val: real, advanced: Time, checked: Time)
      requires Valid() && clock <= advanced <= checked
      modifies this
      ensures Valid() && clock == checked
      ensures
        var key, end := Round(t, bucketSize), Round(checked, bucketSize);
        offers == old(offers) + [Offer(key, val, end - windowLength < key <= end)]
      ensures inOrder == (old(inOrder) && old(clock) <= t <= checked)
      ensures forall k | k in old(buckets) && k > WindowStart(advanced) :: k in buckets
    {
      ghost var ordered := clock <= t <= checked;
      if ordered {
        RoundingIsMonotone(clock, t, bucketSize);
        RoundingIsMonotone(t, checked, bucketSize);
      }
      ghost var bound := Now(clock);
      Advance(advanced);
      assert forall k | k in buckets :: k <= bound;
      Tick(checked);
      var key := Now(t);
      if !InWindow(key, checked) {
        Refuse(key, val, WindowStart(checked), Now(checked), ordered);
        return;
      }
      Accept(key, val, WindowStart(checked), Now(checked), ordered);
    }

    /** A refused point changes nothing but the history. */
    ghost method Refuse(key: Time, val: real, start: Time, now: Time, ordered: bool)
      requires WindowInv(offers, keys, buckets, qty, sum, start, now, inOrder) && (ordered ==> key <= start && key <= now)
      modifies this`offers, this`inOrder
      ensures WindowInv(offers, keys, buckets, qty, sum, start, now, inOrder)
      ensures offers == old(offers) + [Offer(key, val, false)] && inOrder == (old(inOrder) && ordered)
    {
      RefusalKeepsInv(offers, keys, buckets, qty, sum, start, now, inOrder, Offer(key, val, false), ordered);
      offers, inOrder := offers + [Offer(key, val, false)], inOrder && ordered;
    }

    /** A point in the window goes into its bucket, a new one if need be, and into the totals. */
    method Accept(key: Time, val: real, ghost start: Time, ghost now: Time, ghost ordered: bool)
      requires WindowInv(offers, keys, buckets, qty, sum, start, now, inOrder)
      requires start < key <= now && (ordered ==> forall k | k in buckets :: k <= key)
      modifies this`keys, this`buckets, this`qty, this`sum, this`offers, this`inOrder
      ensures WindowInv(offers, keys, buckets, qty, sum, start, now, inOrder)
      ensures offers == old(offers) + [Offer(key, val, true)] && inOrder == (old(inOrder) && ordered)
      ensures buckets.Keys == old(buckets).Keys + {key}
    {
      Deposit(key, val);
      offers, inOrder := offers + [Offer(key, val, true)], inOrder && ordered;
      InsertionKeepsInv(old(offers), old(keys), old(buckets), old(qty), old(sum), old(inOrder), start, now,
                        Offer(key, val, true), ordered, offers, keys, buckets, qty, sum, inOrder);
    }

    method Deposit(key: Time, val: real)
      modifies this`keys, this`buckets, this`qty, this`sum
      ensures
        var b := if key in old(buckets) then old(buckets)[key] else Bucket(0.0, 0);
        buckets == old(buckets)[key := Bucket(b.sum + val, Wrap(b.qty + 1))]
      ensures keys == if key in old(buckets) then old(keys) else old(keys) + [key]
      ensures qty == Wrap(old(qty) + 1) && sum == old(sum) + val
    {
      var b := if key in buckets then buckets[key] else Bucket(0.0, 0);
      var bsum := b.sum;
      b := Bucket(bsum + val, Wrap(b.qty + 1));
      qty := Wrap(qty + 1);
      sum := sum - bsum + b.sum;
      if key !in buckets {
        keys := keys + [key];
      }
      buckets := buckets[key := b];
    }

    /** Add: the point's time is itself a clock reading. */
    method Add(val: real, read: Time, advanced: Time, checked: Time)
      requires Valid() && clock <= read <= advanced <= checked
      modifies this
      ensures Valid() && clock == checked && inOrder == old(inOrder)
      ensures
        var key, end := Round(read, bucketSize), Round(checked, bucketSize);
        offers == old(offers) + [Offer(key, val, end - windowLength < key <= end)]
    {
      AddWithTime(read, val, advanced, checked);
    }

    /** After advancing, a window fed in clock order holds exactly the points of the window, accepted or not at the time. */
    lemma WindowIsNaive(now: Time)
      requires Valid() && inOrder && clock == now && (keys == [] || keys[0] > WindowStart(now))
      ensures sum == NaiveSum(offers, WindowStart(now), Now(now))
      ensures qty == Wrap(NaiveCount(offers, WindowStart(now), Now(now)))
    {
      forall k | k in buckets ensures WindowStart(now) < k <= Now(now) {
        var i :| 0 <= i < |keys| && keys[i] == k;
        assert keys[0] <= keys[i];
      }
      TotalsAreNaive(offers, buckets.Keys, WindowStart(now), Now(now));
    }

    /** Sum: the sum over the stored buckets, which hold every accepted point of the window. */
    method Sum(now: Time) returns (r: real)
      requires Valid() && now >= clock
      modifies this`keys, this`buckets, this`qty, this`sum, this`clock
      ensures Valid() && clock == now && KeysMatch(keys, buckets)
      ensures r == BucketSum(keys, buckets)
      ensures forall o | o in offers && o.accepted && Round(now, bucketSize) - windowLength < o.key :: o.key in buckets
      ensures inOrder ==> r == NaiveSum(offers, Round(now, bucketSize) - windowLength, Round(now, bucketSize))
    {
      Advance(now);
      if inOrder {
        WindowIsNaive(now);
      }
      TotalIsSumOfBuckets(offers, keys, buckets);
      KeySet(keys, buckets);
      r := sum;
    }

    method Count(now: Time) returns (r: uint64)
      requires Valid() && now >= clock
      modifies this`keys, this`buckets, this`qty, this`sum, this`clock
      ensures Valid() && clock == now
      ensures r == Wrap(CountIn(offers, buckets.Keys))
      ensures inOrder ==> r == Wrap(NaiveCount(offers, Round(now, bucketSize) - windowLength, Round(now, bucketSize)))
    {
      Advance(now);
      if inOrder {
        WindowIsNaive(now);
      }
      r := qty;
    }

    method Avg(now: Time) returns (r: real)
      requires Valid() && now >= clock
      modifies this`keys, this`buckets, this`qty, this`sum, this`clock
      ensures Valid() && clock == now && KeysMatch(keys, buckets)
      ensures
        var n := Wrap(CountIn(offers, buckets.Keys));
        r == if n == 0 then 0.0 else BucketSum(keys, buckets) / n as real
      ensures inOrder ==>
        var from, to := Round(now, bucketSize) - windowLength, Round(now, bucketSize);
        var n := Wrap(NaiveCount(offers, from, to));
        r == if n == 0 then 0.0 else NaiveSum(offers, from, to) / n as real
    {
      Advance(now);
      if inOrder {
        WindowIsNaive(now);
      }
      TotalIsSumOfBuckets(offers, keys, buckets);
      KeySet(keys, buckets);
      if qty == 0 {
        return 0.0;
      }
      r := sum / qty as real;
    }

    /** Clear zeroes the totals and keeps the buckets, so the totals are right afterwards only if they were zero already. */
    method Clear()
      requires Valid()
      modifies this`qty, this`sum
      ensures qty == 0 && sum == 0.0
      ensures Valid() <==> old(qty) == 0 && old(sum) == 0.0
    {
      qty := 0;
      sum := 0.0;
    }
  }
}
