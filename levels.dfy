/** Price levels and one side of an instrument's book.

    A side is a list of levels kept best price first: bids by descending
    price, asks by ascending price. This is the iteration order of the
    C++ `std::map` (with `std::greater` for bids), so the head of the list is
    `begin()`, and it is the level the Python picks with `max`/`min` over the
    dictionary keys. `LevelAt` gives the dictionary view, price to queue. */
module Levels {
  import opened Orders

  /** The FIFO queue of resting orders at one price. */
  datatype Level = Level(price: int, orders: seq<Order>)

  /** Oldest first: timestamps never decrease along the queue. */
  predicate SortedByTime(s: seq<Order>) {
    forall i, j :: 0 <= i < j < |s| ==> s[i].timestamp <= s[j].timestamp
  }

  /** Puts `x` in front of the first order that is strictly younger than it,
      that is, behind every order whose timestamp is not later than its own. */
  function InsertByTime(s: seq<Order>, x: Order): seq<Order>
  {
    if |s| == 0 then [x]
    else if x.timestamp < s[0].timestamp then [x] + s
    else [s[0]] + InsertByTime(s[1..], x)
  }

  /** How many leading orders `x` is placed behind. */
  function InsertionPoint(s: seq<Order>, x: Order): nat
  {
    if |s| == 0 || x.timestamp < s[0].timestamp then 0
    else 1 + InsertionPoint(s[1..], x)
  }

  /** Insertion splits the queue: the new order goes after every order it
      passed, each of which has an earlier or equal timestamp, and in front of
      the first order with a later one. */
  lemma {:induction false} InsertByTimeSplits(s: seq<Order>, x: Order)
    ensures InsertionPoint(s, x) <= |s|
    ensures InsertByTime(s, x) == s[..InsertionPoint(s, x)] + [x] + s[InsertionPoint(s, x)..]
    ensures forall i :: 0 <= i < InsertionPoint(s, x) ==> s[i].timestamp <= x.timestamp
    ensures InsertionPoint(s, x) < |s| ==> x.timestamp < s[InsertionPoint(s, x)].timestamp
  {
    if |s| == 0 || x.timestamp < s[0].timestamp {
      assert s[..0] == [] && s[0..] == s;
    } else {
      var t := s[1..];
      InsertByTimeSplits(t, x);
      var k := InsertionPoint(t, x);
      SplitCons(s, x, k);
      forall i | 0 <= i < k + 1 ensures s[i].timestamp <= x.timestamp {
        if i > 0 { assert s[i] == t[i - 1]; }
      }
    }
  }

  /** Putting the head back in front of a split of the tail is a split of
      the whole queue one place later. */
  lemma SplitCons(s: seq<Order>, x: Order, k: nat)
    requires 0 < |s| && k <= |s| - 1
    ensures [s[0]] + (s[1..][..k] + [x] + s[1..][k..]) == s[..k + 1] + [x] + s[k + 1..]
  {
    assert s[..k + 1] == [s[0]] + s[1..][..k];
    assert s[k + 1..] == s[1..][k..];
  }

  /** Where each order of the queue ends up after inserting `x`. */
  lemma {:induction false} InsertByTimeIndex(s: seq<Order>, x: Order)
    ensures var k := InsertionPoint(s, x);
      && k <= |s|
      && |InsertByTime(s, x)| == |s| + 1
      && InsertByTime(s, x)[k] == x
      && (forall i :: 0 <= i < k ==> InsertByTime(s, x)[i] == s[i])
      && (forall i :: k < i <= |s| ==> InsertByTime(s, x)[i] == s[i - 1])
  {
    if |s| > 0 && x.timestamp >= s[0].timestamp {
      var t := s[1..];
      InsertByTimeIndex(t, x);
      var r := InsertByTime(s, x);
      assert r == [s[0]] + InsertByTime(t, x);
      forall i | 0 < i <= |s| ensures r[i] == InsertByTime(t, x)[i - 1] {
      }
      forall i | 0 < i < |s| ensures s[i] == t[i - 1] {
      }
    }
  }

  /** Inserting adds `x` and keeps every queued order. */
  lemma {:induction false} InsertByTimeMultiset(s: seq<Order>, x: Order)
    ensures multiset(InsertByTime(s, x)) == multiset(s) + multiset{x}
  {
    if |s| > 0 && x.timestamp >= s[0].timestamp {
      InsertByTimeMultiset(s[1..], x);
      assert s == [s[0]] + s[1..];
    }
  }

  /** On a time-sorted queue, inserting is stable: the new order lands after
      every order with an earlier or equal timestamp (FIFO among equal
      timestamps) and before every later one, and the queue stays sorted. */
  lemma InsertByTimeSorted(s: seq<Order>, x: Order)
    requires SortedByTime(s)
    ensures forall i :: InsertionPoint(s, x) <= i < |s| ==> x.timestamp < s[i].timestamp
    ensures SortedByTime(InsertByTime(s, x))
  {
    InsertByTimeSplits(s, x);
    InsertByTimeIndex(s, x);
    var k := InsertionPoint(s, x);
    var r := InsertByTime(s, x);
    forall i, j | 0 <= i < j < |r| ensures r[i].timestamp <= r[j].timestamp {
      var ti := if i < k then s[i].timestamp else if i == k then x.timestamp else s[i - 1].timestamp;
      var tj := if j < k then s[j].timestamp else if j == k then x.timestamp else s[j - 1].timestamp;
      assert r[i].timestamp == ti && r[j].timestamp == tj;
    }
  }

  /** The stable sort by timestamp that the Python `list.sort(key=timestamp)`
      performs (an insertion sort, which is stable): the result is in time
      order and is a permutation of the input, which is all `std::sort`
      promises. */
  function SortByTime(s: seq<Order>): (r: seq<Order>)
    ensures multiset(r) == multiset(s) && SortedByTime(r)
    decreases |s|
  {
    if |s| == 0 then []
    else
      var n := |s| - 1;
      var sorted := SortByTime(s[..n]);
      SortStep(s, sorted);
      InsertByTime(sorted, s[n])
  }

  /** The step of `SortByTime`: inserting the last order into the sorted prefix
      gives a sorted permutation of the whole queue. */
  lemma SortStep(s: seq<Order>, sorted: seq<Order>)
    requires |s| > 0 && multiset(sorted) == multiset(s[..|s| - 1]) && SortedByTime(sorted)
    ensures multiset(InsertByTime(sorted, s[|s| - 1])) == multiset(s)
    ensures SortedByTime(InsertByTime(sorted, s[|s| - 1]))
  {
    var n := |s| - 1;
    InsertByTimeSorted(sorted, s[n]);
    InsertByTimeMultiset(sorted, s[n]);
    assert s == s[..n] + [s[n]];
  }

  /** An order no younger than everything queued goes to the back. */
  lemma {:induction false} InsertAtBack(s: seq<Order>, x: Order)
    requires forall i :: 0 <= i < |s| ==> s[i].timestamp <= x.timestamp
    ensures InsertByTime(s, x) == s + [x]
  {
    if |s| > 0 {
      InsertAtBack(s[1..], x);
      assert s + [x] == [s[0]] + (s[1..] + [x]);
    }
  }

  /** Sorting a queue that is already in time order changes nothing. */
  lemma {:induction false} SortSorted(s: seq<Order>)
    requires SortedByTime(s)
    ensures SortByTime(s) == s
    decreases |s|
  {
    if |s| > 0 {
      var n := |s| - 1;
      SortedPrefix(s, s[..n]);
      SortSorted(s[..n]);
      InsertAtBack(s[..n], s[n]);
      assert s[..n] + [s[n]] == s;
    }
  }

  /** Dropping the last order of a time-sorted queue leaves a time-sorted queue
      of orders no younger than the dropped one. */
  lemma SortedPrefix(s: seq<Order>, p: seq<Order>)
    requires SortedByTime(s) && |s| > 0 && p == s[..|s| - 1]
    ensures SortedByTime(p)
    ensures forall i :: 0 <= i < |p| ==> p[i].timestamp <= s[|s| - 1].timestamp
  {
  }

  /** Appending to a time-sorted queue and re-sorting, as the engine rests an
      order, is the same as inserting the order at its place. */
  lemma SortAfterAppend(s: seq<Order>, x: Order)
    requires SortedByTime(s)
    ensures SortByTime(s + [x]) == InsertByTime(s, x)
  {
    assert (s + [x])[..|s|] == s;
    SortSorted(s);
  }

  /** Total resting quantity of a queue. */
  function QueueVolume(s: seq<Order>): int
  {
    if |s| == 0 then 0 else s[0].quantity + QueueVolume(s[1..])
  }

  lemma {:induction false} QueueVolumeInsert(s: seq<Order>, x: Order)
    ensures QueueVolume(InsertByTime(s, x)) == QueueVolume(s) + x.quantity
  {
    if |s| > 0 && x.timestamp >= s[0].timestamp {
      QueueVolumeInsert(s[1..], x);
    } else if |s| > 0 {
      assert ([x] + s)[1..] == s;
    }
  }

  /** Total resting quantity of one side of a book. */
  function Volume(levels: seq<Level>): int
  {
    if |levels| == 0 then 0 else QueueVolume(levels[0].orders) + Volume(levels[1..])
  }

  /** Ordering of prices on one side: `Better(Buy, p, q)` when a bid at `p` has
      priority over one at `q` (higher), `Better(Sell, p, q)` when an ask at `p`
      has priority over one at `q` (lower). */
  predicate Better(s: Side, p: int, q: int) {
    match s
    case Buy => p > q
    case Sell => p < q
  }

  /** A level holds at least one order; every order in it sits at the level's
      price with a positive quantity; the queue is oldest first. */
  predicate LevelValid(l: Level) {
    && |l.orders| > 0
    && SortedByTime(l.orders)
    && forall k :: 0 <= k < |l.orders| ==> l.orders[k].price == l.price && l.orders[k].quantity > 0
  }

  /** One side of a book: valid levels, one per price, best price first. */
  predicate LevelsValid(s: Side, levels: seq<Level>) {
    && (forall i, j :: 0 <= i < j < |levels| ==> Better(s, levels[i].price, levels[j].price))
    && (forall i :: 0 <= i < |levels| ==> LevelValid(levels[i]))
  }

  /** Every resting quantity is positive (what matching needs to make progress). */
  predicate AllPositive(levels: seq<Level>) {
    forall i, k :: 0 <= i < |levels| && 0 <= k < |levels[i].orders| ==> levels[i].orders[k].quantity > 0
  }

  lemma ValidIsPositive(s: Side, levels: seq<Level>)
    requires LevelsValid(s, levels)
    ensures AllPositive(levels)
  {
    forall i, k | 0 <= i < |levels| && 0 <= k < |levels[i].orders|
      ensures levels[i].orders[k].quantity > 0
    {
      assert LevelValid(levels[i]);
    }
  }

  /** The dictionary view of a side: the queue at price `p`, empty when no level
      has that price. */
  function LevelAt(levels: seq<Level>, p: int): seq<Order>
  {
    if |levels| == 0 then []
    else if levels[0].price == p then levels[0].orders
    else LevelAt(levels[1..], p)
  }

  /** `q` has priority over every level of the list. */
  predicate AllWorse(s: Side, q: int, levels: seq<Level>) {
    forall i :: 0 <= i < |levels| ==> Better(s, q, levels[i].price)
  }

  lemma {:induction false} LevelAtAbsent(s: Side, q: int, levels: seq<Level>)
    requires AllWorse(s, q, levels)
    ensures LevelAt(levels, q) == []
  {
    if |levels| > 0 {
      assert Better(s, q, levels[0].price);
      LevelAtAbsent(s, q, levels[1..]);
    }
  }

  /** Rests an order on its own side: appended to the queue at its price and
      that queue re-sorted by timestamp, or a new level created at its place
      in price order. */
  function Rest(s: Side, levels: seq<Level>, o: Order): seq<Level>
  {
    if |levels| == 0 then [Level(o.price, [o])]
    else if levels[0].price == o.price then
      [Level(o.price, SortByTime(levels[0].orders + [o]))] + levels[1..]
    else if Better(s, o.price, levels[0].price) then [Level(o.price, [o])] + levels
    else [levels[0]] + Rest(s, levels[1..], o)
  }

  /** The best level after resting is the new order's level or the old best. */
  lemma RestHead(s: Side, levels: seq<Level>, o: Order)
    ensures |Rest(s, levels, o)| > 0
    ensures Rest(s, levels, o)[0].price == o.price
         || (|levels| > 0 && Rest(s, levels, o)[0].price == levels[0].price)
  {
  }

  lemma {:induction false} RestBounded(s: Side, q: int, levels: seq<Level>, o: Order)
    requires AllWorse(s, q, levels) && Better(s, q, o.price)
    ensures AllWorse(s, q, Rest(s, levels, o))
  {
    if |levels| > 0 && levels[0].price != o.price && !Better(s, o.price, levels[0].price) {
      RestBounded(s, q, levels[1..], o);
    }
  }

  /** Resting a positive quantity keeps the side valid: no empty level, one
      level per price in price order, each queue oldest first. */
  lemma {:induction false} RestValid(s: Side, levels: seq<Level>, o: Order)
    requires LevelsValid(s, levels) && o.quantity > 0
    ensures LevelsValid(s, Rest(s, levels, o))
  {
    if |levels| == 0 {
    } else if levels[0].price == o.price {
      RestSameValid(s, levels, o);
    } else if Better(s, o.price, levels[0].price) {
      RestFrontValid(s, levels, o);
    } else {
      RestValid(s, levels[1..], o);
      RestBehindValid(s, levels, o);
    }
  }

  /** `RestValid` where the order joins the best level's queue. */
  lemma RestSameValid(s: Side, levels: seq<Level>, o: Order)
    requires LevelsValid(s, levels) && o.quantity > 0
    requires |levels| > 0 && levels[0].price == o.price
    ensures LevelsValid(s, Rest(s, levels, o))
  {
    var r := Rest(s, levels, o);
    var q := SortByTime(levels[0].orders + [o]);
    assert LevelValid(levels[0]);
    forall k | 0 <= k < |q| ensures q[k].price == o.price && q[k].quantity > 0 {
      assert q[k] in multiset(levels[0].orders + [o]);
      assert q[k] in levels[0].orders + [o];
    }
    assert LevelValid(r[0]);
    assert forall i :: 1 <= i < |r| ==> r[i] == levels[i];
  }

  /** `RestValid` where the order opens a new best level. */
  lemma RestFrontValid(s: Side, levels: seq<Level>, o: Order)
    requires LevelsValid(s, levels) && o.quantity > 0
    requires |levels| > 0 && Better(s, o.price, levels[0].price)
    ensures LevelsValid(s, Rest(s, levels, o))
  {
    var r := Rest(s, levels, o);
    assert forall i :: 1 <= i < |r| ==> r[i] == levels[i - 1];
  }

  /** `RestValid` where the order goes behind the best level, given that the
      rest of the side stays valid. */
  lemma RestBehindValid(s: Side, levels: seq<Level>, o: Order)
    requires LevelsValid(s, levels) && |levels| > 0
    requires levels[0].price != o.price && !Better(s, o.price, levels[0].price)
    requires LevelsValid(s, Rest(s, levels[1..], o))
    ensures LevelsValid(s, Rest(s, levels, o))
  {
    var tail := levels[1..];
    assert AllWorse(s, levels[0].price, tail);
    RestBounded(s, levels[0].price, tail, o);
  }


  /** Resting changes the dictionary view at the order's own price only, and
      there it inserts the order behind every order no younger than it. */
  lemma {:induction false} RestLevelAt(s: Side, levels: seq<Level>, o: Order)
    requires LevelsValid(s, levels)
    ensures LevelAt(Rest(s, levels, o), o.price) == InsertByTime(LevelAt(levels, o.price), o)
    ensures forall p :: p != o.price ==> LevelAt(Rest(s, levels, o), p) == LevelAt(levels, p)
  {
    if |levels| == 0 {
    } else if levels[0].price == o.price {
      assert LevelValid(levels[0]);
      SortAfterAppend(levels[0].orders, o);
    } else if Better(s, o.price, levels[0].price) {
      assert AllWorse(s, o.price, levels);
      LevelAtAbsent(s, o.price, levels);
    } else {
      RestLevelAt(s, levels[1..], o);
    }
  }

  /** Resting adds exactly the order's quantity to its side. */
  lemma {:induction false} RestVolume(s: Side, levels: seq<Level>, o: Order)
    requires LevelsValid(s, levels)
    ensures Volume(Rest(s, levels, o)) == Volume(levels) + o.quantity
  {
    assert QueueVolume([o]) == o.quantity;
    if |levels| == 0 {
      assert Rest(s, levels, o)[1..] == [];
    } else if levels[0].price == o.price {
      assert LevelValid(levels[0]);
      SortAfterAppend(levels[0].orders, o);
      QueueVolumeInsert(levels[0].orders, o);
    } else if Better(s, o.price, levels[0].price) {
      assert Rest(s, levels, o)[1..] == levels;
    } else {
      RestVolume(s, levels[1..], o);
    }
  }
}
