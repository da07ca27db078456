/** The matching walk of an incoming order over the opposite side of the book,
    as a function of the side, the resting levels, the order and its
    remaining quantity, with the facts the engine relies on proved about it. */
module Matching {
  import opened Orders
  import opened Levels

  /** An incoming order on side `s` with limit `limit` trades with a resting
      level at price `best`: a buy while the best ask is not above its limit,
      a sell while the best bid is not below it. Equal prices cross. */
  predicate Crosses(s: Side, best: int, limit: int) {
    match s
    case Buy => best <= limit
    case Sell => best >= limit
  }

  function Min(a: int, b: int): (m: int)
    ensures m <= a && m <= b && (m == a || m == b)
  {
    if a < b then a else b
  }

  /** The trade an incoming order on side `s` makes with a resting order: at the
      resting order's price, with the buyer and seller taken from the two sides. */
  function MakeTrade(s: Side, o: Order, resting: Order, q: int): Trade {
    match s
    case Buy => Trade(o.instrument, o.id, resting.id, resting.price, q)
    case Sell => Trade(o.instrument, resting.id, o.id, resting.price, q)
  }

  /** A trade records the instrument of the incoming order, the resting
      order's price, the filled quantity, the incoming id on the incoming side
      and the resting id on the other. */
  lemma MakeTradeFacts(s: Side, o: Order, resting: Order, q: int)
    ensures var t := MakeTrade(s, o, resting, q);
      && t.instrument == o.instrument && t.price == resting.price && t.quantity == q
      && IncomingId(s, t) == o.id && RestingId(s, t) == resting.id
  {
  }

  /** The id a trade records for the incoming order's side. */
  function IncomingId(s: Side, t: Trade): string {
    match s
    case Buy => t.buyId
    case Sell => t.sellId
  }

  /** The id a trade records for the resting order's side. */
  function RestingId(s: Side, t: Trade): string {
    match s
    case Buy => t.sellId
    case Sell => t.buyId
  }

  function TradeVolume(trades: seq<Trade>): int {
    if |trades| == 0 then 0 else trades[0].quantity + TradeVolume(trades[1..])
  }

  /** Takes `q` off the head order of a queue; pops the head when it reaches zero. */
  function TakeFromHead(orders: seq<Order>, q: int): seq<Order>
    requires |orders| > 0
  {
    if orders[0].quantity - q == 0 then orders[1..]
    else [orders[0].(quantity := orders[0].quantity - q)] + orders[1..]
  }

  /** Replaces the best level's queue, deleting the level when the queue is empty. */
  function ReplaceBest(levels: seq<Level>, orders: seq<Order>): seq<Level>
    requires |levels| > 0
  {
    if |orders| == 0 then levels[1..] else [levels[0].(orders := orders)] + levels[1..]
  }

  /** One fill of `q` against the head order of the best level. */
  function FillHead(levels: seq<Level>, q: int): seq<Level>
    requires |levels| > 0 && |levels[0].orders| > 0
  {
    ReplaceBest(levels, TakeFromHead(levels[0].orders, q))
  }

  lemma FillHeadPositive(levels: seq<Level>, q: int)
    requires AllPositive(levels) && |levels| > 0 && |levels[0].orders| > 0
    requires q <= levels[0].orders[0].quantity
    ensures AllPositive(FillHead(levels, q))
  {
    var os := TakeFromHead(levels[0].orders, q);
    assert forall k :: 0 <= k < |os| ==> os[k].quantity > 0 by {
      forall k | 0 <= k < |os| ensures os[k].quantity > 0 {
        if levels[0].orders[0].quantity - q == 0 {
          assert os[k] == levels[0].orders[k + 1];
        } else if k > 0 {
          assert os[k] == levels[0].orders[k];
        }
      }
    }
    var r := FillHead(levels, q);
    forall i | 0 <= i < |r| ensures forall k :: 0 <= k < |r[i].orders| ==> r[i].orders[k].quantity > 0 {
      if |os| == 0 { assert r[i] == levels[i + 1]; }
      else if i > 0 { assert r[i] == levels[i]; }
    }
  }

  /** The outcome of a matching walk: the opposite side afterwards, the trades
      in the order they were made, and the incoming order's remaining quantity. */
  datatype Fill = Fill(levels: seq<Level>, trades: seq<Trade>, remaining: int)

  /** The matching loop of `_add_buy_order` / `_add_sell_order` and of
      `add_buy_order` / `add_sell_order`: while quantity remains and the best
      opposite level crosses the limit, trade `min(remaining, head quantity)`
      with the head of the best level at its price. A level whose queue is
      empty is dropped without a trade (the C++ guard; from a valid book no
      such level occurs, see `MatchKeepsValid`). */
  function Match(s: Side, levels: seq<Level>, o: Order, qty: int): Fill
    requires AllPositive(levels)
    decreases if qty > 0 then qty else 0, |levels|
  {
    if qty <= 0 || |levels| == 0 || !Crosses(s, levels[0].price, o.price) then Fill(levels, [], qty)
    else if |levels[0].orders| == 0 then Match(s, levels[1..], o, qty)
    else
      var head := levels[0].orders[0];
      var q := Min(qty, head.quantity);
      FillHeadPositive(levels, q);
      var rest := Match(s, FillHead(levels, q), o, qty - q);
      Fill(rest.levels, [MakeTrade(s, o, head, q)] + rest.trades, rest.remaining)
  }

  /** What one fill of `q` against the head order does: a partial fill lowers
      the head's quantity by `q`; a full fill pops the head, and deletes the
      level when the head was its only order. Nothing else changes. */
  lemma FillHeadShape(levels: seq<Level>, q: int)
    requires |levels| > 0 && |levels[0].orders| > 0 && 0 < q <= levels[0].orders[0].quantity
    ensures var head := levels[0].orders[0];
      q < head.quantity ==>
        FillHead(levels, q)
        == [Level(levels[0].price, [head.(quantity := head.quantity - q)] + levels[0].orders[1..])] + levels[1..]
    ensures q == levels[0].orders[0].quantity && |levels[0].orders| > 1 ==>
      FillHead(levels, q) == [Level(levels[0].price, levels[0].orders[1..])] + levels[1..]
    ensures q == levels[0].orders[0].quantity && |levels[0].orders| == 1 ==> FillHead(levels, q) == levels[1..]
  {
  }

  /** The walk still to come from `levels` with `qty` left, after the trades
      `done`, ends in `goal`. */
  predicate Continues(s: Side, goal: Fill, levels: seq<Level>, o: Order, qty: int, done: seq<Trade>)
    requires AllPositive(levels)
  {
    var m := Match(s, levels, o, qty);
    goal == Fill(m.levels, done + m.trades, m.remaining)
  }

  /** One step of the walk on a crossing, non-empty best level: a trade of
      `min(qty, head quantity)` with the head, after which the walk over what
      is left still ends in the same place. */
  lemma MatchStep(s: Side, goal: Fill, levels: seq<Level>, o: Order, qty: int, done: seq<Trade>)
    requires AllPositive(levels) && qty > 0 && |levels| > 0 && |levels[0].orders| > 0
    requires Crosses(s, levels[0].price, o.price)
    requires Continues(s, goal, levels, o, qty, done)
    ensures var q := Min(qty, levels[0].orders[0].quantity);
      && 0 < q <= qty
      && AllPositive(FillHead(levels, q))
      && Continues(s, goal, FillHead(levels, q), o, qty - q, done + [MakeTrade(s, o, levels[0].orders[0], q)])
  {
    var q := Min(qty, levels[0].orders[0].quantity);
    var t := MakeTrade(s, o, levels[0].orders[0], q);
    FillHeadPositive(levels, q);
    var m := Match(s, FillHead(levels, q), o, qty - q);
    assert Match(s, levels, o, qty) == Fill(m.levels, [t] + m.trades, m.remaining);
    assert done + ([t] + m.trades) == (done + [t]) + m.trades;
  }

  /** An empty best level is dropped without a trade. */
  lemma MatchSkip(s: Side, goal: Fill, levels: seq<Level>, o: Order, qty: int, done: seq<Trade>)
    requires AllPositive(levels) && qty > 0 && |levels| > 0 && |levels[0].orders| == 0
    requires Crosses(s, levels[0].price, o.price)
    requires Continues(s, goal, levels, o, qty, done)
    ensures AllPositive(levels[1..]) && Continues(s, goal, levels[1..], o, qty, done)
  {
    assert Match(s, levels, o, qty) == Match(s, levels[1..], o, qty);
  }

  /** Where the walk stops, nothing is left to come. */
  lemma MatchDone(s: Side, goal: Fill, levels: seq<Level>, o: Order, qty: int, done: seq<Trade>)
    requires AllPositive(levels) && Continues(s, goal, levels, o, qty, done)
    requires qty <= 0 || |levels| == 0 || !Crosses(s, levels[0].price, o.price)
    ensures goal == Fill(levels, done, qty)
  {
    assert done + [] == done;
  }

  /** The walk over a crossing, non-empty best level: a fill of the head, then
      the walk over what that fill leaves. */
  lemma MatchUnfold(s: Side, levels: seq<Level>, o: Order, qty: int)
    requires AllPositive(levels) && qty > 0 && |levels| > 0 && |levels[0].orders| > 0
    requires Crosses(s, levels[0].price, o.price)
    ensures var q := Min(qty, levels[0].orders[0].quantity);
      && 0 < q <= levels[0].orders[0].quantity
      && AllPositive(FillHead(levels, q))
      && var rest := Match(s, FillHead(levels, q), o, qty - q);
         Match(s, levels, o, qty) == Fill(rest.levels, [MakeTrade(s, o, levels[0].orders[0], q)] + rest.trades, rest.remaining)
  {
    FillHeadPositive(levels, Min(qty, levels[0].orders[0].quantity));
  }

  // ---------------------------------------------------------------------------
  // Conservation and termination of the walk

  lemma TakeFromHeadVolume(orders: seq<Order>, q: int)
    requires |orders| > 0
    ensures QueueVolume(TakeFromHead(orders, q)) == QueueVolume(orders) - q
  {
    if orders[0].quantity - q != 0 {
      assert TakeFromHead(orders, q)[1..] == orders[1..];
    }
  }

  lemma ReplaceBestVolume(levels: seq<Level>, orders: seq<Order>)
    requires |levels| > 0
    ensures Volume(ReplaceBest(levels, orders)) == Volume(levels) - QueueVolume(levels[0].orders) + QueueVolume(orders)
  {
    if |orders| != 0 {
      assert ReplaceBest(levels, orders)[1..] == levels[1..];
    }
  }

  lemma FillHeadVolume(levels: seq<Level>, q: int)
    requires |levels| > 0 && |levels[0].orders| > 0
    requires 0 < q <= levels[0].orders[0].quantity
    ensures Volume(FillHead(levels, q)) == Volume(levels) - q
  {
    TakeFromHeadVolume(levels[0].orders, q);
    ReplaceBestVolume(levels, TakeFromHead(levels[0].orders, q));
  }

  /** Quantity is conserved: what was traded plus what remains is what came in,
      what remains is never negative and never above what came in, and the
      opposite side loses exactly the traded quantity. */
  lemma {:induction false} MatchConserves(s: Side, levels: seq<Level>, o: Order, qty: int)
    requires AllPositive(levels)
    ensures TradeVolume(Match(s, levels, o, qty).trades) + Match(s, levels, o, qty).remaining == qty
    ensures qty >= 0 ==> 0 <= Match(s, levels, o, qty).remaining <= qty
    ensures Volume(levels) == Volume(Match(s, levels, o, qty).levels) + TradeVolume(Match(s, levels, o, qty).trades)
    decreases if qty > 0 then qty else 0, |levels|, 1
  {
    if qty <= 0 || |levels| == 0 || !Crosses(s, levels[0].price, o.price) {
    } else if |levels[0].orders| == 0 {
      MatchConserves(s, levels[1..], o, qty);
    } else {
      FillConserves(s, levels, o, qty);
    }
  }

  /** `MatchConserves` where the head of the best level is filled. */
  lemma {:induction false} FillConserves(s: Side, levels: seq<Level>, o: Order, qty: int)
    requires AllPositive(levels) && qty > 0 && |levels| > 0 && |levels[0].orders| > 0
    requires Crosses(s, levels[0].price, o.price)
    ensures TradeVolume(Match(s, levels, o, qty).trades) + Match(s, levels, o, qty).remaining == qty
    ensures 0 <= Match(s, levels, o, qty).remaining <= qty
    ensures Volume(levels) == Volume(Match(s, levels, o, qty).levels) + TradeVolume(Match(s, levels, o, qty).trades)
    decreases qty, |levels|, 0
  {
    MatchUnfold(s, levels, o, qty);
    var head := levels[0].orders[0];
    var q := Min(qty, head.quantity);
    FillHeadVolume(levels, q);
    MatchConserves(s, FillHead(levels, q), o, qty - q);
    var rest := Match(s, FillHead(levels, q), o, qty - q);
    assert ([MakeTrade(s, o, head, q)] + rest.trades)[1..] == rest.trades;
  }


  /** The walk stops only when nothing is left to fill, the opposite side is
      exhausted, or its best level no longer crosses the limit. */
  lemma {:induction false} MatchStops(s: Side, levels: seq<Level>, o: Order, qty: int)
    requires AllPositive(levels)
    ensures var r := Match(s, levels, o, qty);
      r.remaining <= 0 || |r.levels| == 0 || !Crosses(s, r.levels[0].price, o.price)
    decreases if qty > 0 then qty else 0, |levels|
  {
    if qty <= 0 || |levels| == 0 || !Crosses(s, levels[0].price, o.price) {
    } else if |levels[0].orders| == 0 {
      MatchStops(s, levels[1..], o, qty);
    } else {
      var q := Min(qty, levels[0].orders[0].quantity);
      FillHeadPositive(levels, q);
      MatchStops(s, FillHead(levels, q), o, qty - q);
    }
  }

  // ---------------------------------------------------------------------------
  // Only the front of the book is consumed

  /** `b` is the queue `a` after some orders were taken off its front and its new
      head possibly partly filled: everything behind the head is untouched, and
      the head differs from the original only in a smaller positive quantity. */
  predicate FrontReduced(a: seq<Order>, b: seq<Order>) {
    && |b| <= |a|
    && (|b| > 0 ==>
         var j := |a| - |b|;
         && b[1..] == a[j + 1..]
         && b[0] == a[j].(quantity := b[0].quantity)
         && 0 < b[0].quantity <= a[j].quantity)
  }

  /** `b` is the side `a` after matching: some best levels were removed whole and
      the new best level is the old one at that price with its front consumed
      (and still holding an order if it held one); every level behind it is
      untouched. */
  predicate Remainder(a: seq<Level>, b: seq<Level>) {
    && |b| <= |a|
    && (|b| > 0 ==>
         var k := |a| - |b|;
         && b[1..] == a[k + 1..]
         && b[0].price == a[k].price
         && (|a[k].orders| > 0 ==> |b[0].orders| > 0)
         && FrontReduced(a[k].orders, b[0].orders))
  }

  lemma RemainderRefl(a: seq<Level>)
    requires AllPositive(a)
    ensures Remainder(a, a)
  {
  }

  lemma DropLevelRemainder(a: seq<Level>)
    requires AllPositive(a) && |a| > 0
    ensures Remainder(a, a[1..])
  {
    if |a| > 1 {
      assert a[1..][1..] == a[2..];
      assert a[1..][0] == a[1];
    }
  }

  lemma FrontReducedTrans(a: seq<Order>, b: seq<Order>, c: seq<Order>)
    requires FrontReduced(a, b) && FrontReduced(b, c)
    ensures FrontReduced(a, c)
  {
    if |c| > 0 {
      var j := |a| - |b|;
      var j' := |b| - |c|;
      if j' == 0 {
        assert c[1..] == b[1..];
      } else {
        assert b[j'] == a[j + j'];
        assert b[j' + 1..] == a[j + j' + 1..];
      }
    }
  }

  lemma RemainderTrans(a: seq<Level>, b: seq<Level>, c: seq<Level>)
    requires Remainder(a, b) && Remainder(b, c)
    ensures Remainder(a, c)
  {
    if |c| > 0 {
      var k := |a| - |b|;
      var k' := |b| - |c|;
      if k' == 0 {
        FrontReducedTrans(a[k].orders, b[0].orders, c[0].orders);
      } else {
        assert b[k'] == a[k + k'];
        assert b[k' + 1..] == a[k + k' + 1..];
      }
    }
  }

  lemma TakeFromHeadReduced(orders: seq<Order>, q: int)
    requires |orders| > 0 && 0 < q <= orders[0].quantity
    requires forall k :: 0 <= k < |orders| ==> orders[k].quantity > 0
    ensures FrontReduced(orders, TakeFromHead(orders, q))
  {
    var r := TakeFromHead(orders, q);
    if orders[0].quantity - q == 0 {
      if |r| > 0 {
        assert r[1..] == orders[2..];
      }
    } else {
      assert r[1..] == orders[1..];
    }
  }

  lemma FillHeadRemainder(levels: seq<Level>, q: int)
    requires AllPositive(levels) && |levels| > 0 && |levels[0].orders| > 0
    requires 0 < q <= levels[0].orders[0].quantity
    ensures Remainder(levels, FillHead(levels, q))
  {
    var os := TakeFromHead(levels[0].orders, q);
    assert forall k :: 0 <= k < |levels[0].orders| ==> levels[0].orders[k].quantity > 0;
    TakeFromHeadReduced(levels[0].orders, q);
    if |os| == 0 {
      DropLevelRemainder(levels);
    } else {
      assert FillHead(levels, q)[1..] == levels[1..];
    }
  }

  /** First-in, first-out: matching only ever removes whole best levels and
      consumes the new best level from its front; nothing behind is touched. */
  lemma {:induction false} MatchRemainder(s: Side, levels: seq<Level>, o: Order, qty: int)
    requires AllPositive(levels)
    ensures Remainder(levels, Match(s, levels, o, qty).levels)
    decreases if qty > 0 then qty else 0, |levels|
  {
    if qty <= 0 || |levels| == 0 || !Crosses(s, levels[0].price, o.price) {
      RemainderRefl(levels);
    } else if |levels[0].orders| == 0 {
      DropLevelRemainder(levels);
      MatchRemainder(s, levels[1..], o, qty);
      RemainderTrans(levels, levels[1..], Match(s, levels[1..], o, qty).levels);
    } else {
      var q := Min(qty, levels[0].orders[0].quantity);
      FillHeadPositive(levels, q);
      FillHeadRemainder(levels, q);
      var next := FillHead(levels, q);
      MatchRemainder(s, next, o, qty - q);
      RemainderTrans(levels, next, Match(s, next, o, qty - q).levels);
    }
  }

  lemma FrontReducedSorted(a: seq<Order>, b: seq<Order>)
    requires FrontReduced(a, b) && SortedByTime(a)
    ensures SortedByTime(b)
  {
    var j := |a| - |b|;
    forall i | 0 <= i < |b| ensures b[i].timestamp == a[j + i].timestamp {
      if i > 0 { assert b[i] == b[1..][i - 1]; }
    }
  }

  /** What matching leaves of a valid side is valid, with every level no better
      than the original best. */
  lemma RemainderValid(s: Side, a: seq<Level>, b: seq<Level>)
    requires LevelsValid(s, a) && Remainder(a, b)
    ensures LevelsValid(s, b)
    ensures forall i :: 0 <= i < |b| ==> !Better(s, b[i].price, a[0].price)
  {
    var k := |a| - |b|;
    forall i | 0 <= i < |b| ensures b[i].price == a[k + i].price {
      if i > 0 { assert b[i] == b[1..][i - 1]; }
    }
    forall i | 1 <= i < |b| ensures b[i] == a[k + i] {
      assert b[i] == b[1..][i - 1];
    }
    if |b| > 0 {
      assert LevelValid(a[k]);
      var x, y := a[k].orders, b[0].orders;
      var j := |x| - |y|;
      FrontReducedSorted(x, y);
      forall m | 0 <= m < |y| ensures y[m].price == b[0].price && y[m].quantity > 0 {
        if m > 0 { assert y[m] == y[1..][m - 1]; }
      }
      assert LevelValid(b[0]);
    }
  }

  // ---------------------------------------------------------------------------
  // Facts about the trades

  /** Some order resting in `levels` has id `id` and price `price`. */
  ghost predicate RestsIn(levels: seq<Level>, id: string, price: int) {
    exists i, j :: 0 <= i < |levels| && 0 <= j < |levels[i].orders|
      && levels[i].orders[j].id == id && levels[i].orders[j].price == price
  }

  lemma RemainderRestsIn(a: seq<Level>, b: seq<Level>, id: string, price: int)
    requires Remainder(a, b) && RestsIn(b, id, price)
    ensures RestsIn(a, id, price)
  {
    var i, j :| 0 <= i < |b| && 0 <= j < |b[i].orders| && b[i].orders[j].id == id && b[i].orders[j].price == price;
    var k := |a| - |b|;
    if i > 0 {
      assert b[i] == b[1..][i - 1] == a[k + i];
    } else {
      var x, y := a[k].orders, b[0].orders;
      var jj := |x| - |y|;
      if j > 0 {
        assert y[j] == y[1..][j - 1] == x[jj + j];
      } else {
        assert x[jj].id == id && x[jj].price == price;
      }
    }
  }

  /** The facts `MatchTrades` states of each trade. */
  ghost predicate TradeFacts(s: Side, levels: seq<Level>, o: Order, t: Trade) {
    && t.quantity > 0
    && t.instrument == o.instrument
    && IncomingId(s, t) == o.id
    && Crosses(s, t.price, o.price)
    && RestsIn(levels, RestingId(s, t), t.price)
  }

  /** One fill against a valid side leaves a valid side whose every level is no
      better than the old best, which is the price of the trade just made. */
  lemma FillHeadValid(opp: Side, levels: seq<Level>, q: int)
    requires LevelsValid(opp, levels) && |levels| > 0
    requires 0 < q <= levels[0].orders[0].quantity
    ensures AllPositive(FillHead(levels, q)) && LevelsValid(opp, FillHead(levels, q))
    ensures Remainder(levels, FillHead(levels, q))
    ensures forall m :: 0 <= m < |FillHead(levels, q)| ==> !Better(opp, FillHead(levels, q)[m].price, levels[0].price)
  {
    ValidIsPositive(opp, levels);
    assert LevelValid(levels[0]);
    FillHeadPositive(levels, q);
    FillHeadRemainder(levels, q);
    RemainderValid(opp, levels, FillHead(levels, q));
  }

  /** Every resting order sits at its level's price. */
  predicate Priced(levels: seq<Level>) {
    forall i, k :: 0 <= i < |levels| && 0 <= k < |levels[i].orders| ==> levels[i].orders[k].price == levels[i].price
  }

  lemma ValidIsPriced(s: Side, levels: seq<Level>)
    requires LevelsValid(s, levels)
    ensures Priced(levels)
  {
    forall i, k | 0 <= i < |levels| && 0 <= k < |levels[i].orders|
      ensures levels[i].orders[k].price == levels[i].price
    {
      assert LevelValid(levels[i]);
    }
  }

  lemma FillHeadPriced(levels: seq<Level>, q: int)
    requires Priced(levels) && |levels| > 0 && |levels[0].orders| > 0
    ensures Priced(FillHead(levels, q))
  {
    var os := TakeFromHead(levels[0].orders, q);
    assert forall k :: 0 <= k < |os| ==> os[k].price == levels[0].price by {
      forall k | 0 <= k < |os| ensures os[k].price == levels[0].price {
        if levels[0].orders[0].quantity - q == 0 {
          assert os[k] == levels[0].orders[k + 1];
        } else if k > 0 {
          assert os[k] == levels[0].orders[k];
        }
      }
    }
    var r := FillHead(levels, q);
    forall i | 0 <= i < |r| ensures forall k :: 0 <= k < |r[i].orders| ==> r[i].orders[k].price == r[i].price {
      if |os| == 0 { assert r[i] == levels[i + 1]; }
      else if i > 0 { assert r[i] == levels[i]; }
    }
  }

  /** A trade's facts carry over from what matching left of a side to the side
      before it. */
  lemma TradeFactsLift(s: Side, a: seq<Level>, b: seq<Level>, o: Order, t: Trade)
    requires Remainder(a, b)
    ensures TradeFacts(s, b, o, t) ==> TradeFacts(s, a, o, t)
  {
    if TradeFacts(s, b, o, t) {
      RemainderRestsIn(a, b, RestingId(s, t), t.price);
    }
  }

  /** The trade with the head of a crossing best level has the facts of
      `TradeFacts`. */
  lemma HeadTradeFacts(s: Side, levels: seq<Level>, o: Order, q: int)
    requires Priced(levels) && |levels| > 0 && |levels[0].orders| > 0 && q > 0
    requires Crosses(s, levels[0].price, o.price)
    ensures TradeFacts(s, levels, o, MakeTrade(s, o, levels[0].orders[0], q))
  {
    var head := levels[0].orders[0];
    assert head.price == levels[0].price;
    assert RestsIn(levels, head.id, head.price);
  }

  /** The `i`-th trade of a walk is at a resting order's price, and so within
      the incoming limit (price improvement goes to the resting order); its
      quantity is positive; it names the incoming order on its own side and a
      resting order of the opposite side on the other. This holds whenever
      every resting order sits at its level's price, empty levels included. */
  lemma {:induction false} MatchTradeFacts(s: Side, levels: seq<Level>, o: Order, qty: int, i: nat)
    requires AllPositive(levels) && Priced(levels)
    requires i < |Match(s, levels, o, qty).trades|
    ensures TradeFacts(s, levels, o, Match(s, levels, o, qty).trades[i])
    decreases if qty > 0 then qty else 0, |levels|, 3
  {
    if qty > 0 && |levels| > 0 && Crosses(s, levels[0].price, o.price) {
      if |levels[0].orders| == 0 {
        SkipTradeFacts(s, levels, o, qty, i);
      } else {
        FillTradeFacts(s, levels, o, qty, i);
      }
    }
  }

  /** `MatchTradeFacts` where the best level is empty and is dropped. */
  lemma {:induction false} SkipTradeFacts(s: Side, levels: seq<Level>, o: Order, qty: int, i: nat)
    requires AllPositive(levels) && Priced(levels)
    requires qty > 0 && |levels| > 0 && |levels[0].orders| == 0 && Crosses(s, levels[0].price, o.price)
    requires i < |Match(s, levels, o, qty).trades|
    ensures TradeFacts(s, levels, o, Match(s, levels, o, qty).trades[i])
    decreases qty, |levels|, 0
  {
    assert Match(s, levels, o, qty) == Match(s, levels[1..], o, qty);
    DropLevelRemainder(levels);
    MatchTradeFacts(s, levels[1..], o, qty, i);
    TradeFactsLift(s, levels, levels[1..], o, Match(s, levels[1..], o, qty).trades[i]);
  }

  /** `MatchTradeFacts` where the head of the best level is filled. */
  lemma {:induction false} FillTradeFacts(s: Side, levels: seq<Level>, o: Order, qty: int, i: nat)
    requires AllPositive(levels) && Priced(levels)
    requires qty > 0 && |levels| > 0 && |levels[0].orders| > 0 && Crosses(s, levels[0].price, o.price)
    requires i < |Match(s, levels, o, qty).trades|
    ensures TradeFacts(s, levels, o, Match(s, levels, o, qty).trades[i])
    decreases qty, |levels|, 2
  {
    if i == 0 {
      MatchUnfold(s, levels, o, qty);
      HeadTradeFacts(s, levels, o, Min(qty, levels[0].orders[0].quantity));
    } else {
      LaterTradeFacts(s, levels, o, qty, i);
    }
  }

  /** `FillTradeFacts` for a trade after the first: it belongs to the walk
      over what the first fill leaves. */
  lemma {:induction false} LaterTradeFacts(s: Side, levels: seq<Level>, o: Order, qty: int, i: nat)
    requires AllPositive(levels) && Priced(levels)
    requires qty > 0 && |levels| > 0 && |levels[0].orders| > 0 && Crosses(s, levels[0].price, o.price)
    requires 0 < i < |Match(s, levels, o, qty).trades|
    ensures TradeFacts(s, levels, o, Match(s, levels, o, qty).trades[i])
    decreases qty, |levels|, 1
  {
    TradeShift(s, levels, o, qty, i);
    NextTradeFacts(s, levels, o, qty, i);
    var q := Min(qty, levels[0].orders[0].quantity);
    var next := FillHead(levels, q);
    TradeFactsLift(s, levels, next, o, Match(s, next, o, qty - q).trades[i - 1]);
  }

  /** The walk over what the first fill leaves: its trade one position
      earlier has the facts of `TradeFacts` on that side. */
  lemma {:induction false} NextTradeFacts(s: Side, levels: seq<Level>, o: Order, qty: int, i: nat)
    requires AllPositive(levels) && Priced(levels)
    requires qty > 0 && |levels| > 0 && |levels[0].orders| > 0 && Crosses(s, levels[0].price, o.price)
    requires 0 < i < |Match(s, levels, o, qty).trades|
    ensures var q := Min(qty, levels[0].orders[0].quantity);
      && 0 < q <= levels[0].orders[0].quantity
      && AllPositive(FillHead(levels, q))
      && Remainder(levels, FillHead(levels, q))
      && i - 1 < |Match(s, FillHead(levels, q), o, qty - q).trades|
      && TradeFacts(s, FillHead(levels, q), o, Match(s, FillHead(levels, q), o, qty - q).trades[i - 1])
    decreases qty, |levels|, 0
  {
    TradeShift(s, levels, o, qty, i);
    var q := Min(qty, levels[0].orders[0].quantity);
    FillHeadPriced(levels, q);
    FillHeadRemainder(levels, q);
    MatchTradeFacts(s, FillHead(levels, q), o, qty - q, i - 1);
  }

  /** A trade after the first is a trade of the walk over what the first fill
      leaves, one position earlier. */
  lemma TradeShift(s: Side, levels: seq<Level>, o: Order, qty: int, i: nat)
    requires AllPositive(levels)
    requires qty > 0 && |levels| > 0 && |levels[0].orders| > 0 && Crosses(s, levels[0].price, o.price)
    requires 0 < i < |Match(s, levels, o, qty).trades|
    ensures var q := Min(qty, levels[0].orders[0].quantity);
      && 0 < q <= levels[0].orders[0].quantity
      && AllPositive(FillHead(levels, q))
      && i - 1 < |Match(s, FillHead(levels, q), o, qty - q).trades|
      && Match(s, levels, o, qty).trades[i] == Match(s, FillHead(levels, q), o, qty - q).trades[i - 1]
  {
    MatchUnfold(s, levels, o, qty);
  }


  /** Every trade of a walk over a valid side has the facts of `MatchTradeFacts`. */
  lemma MatchTrades(s: Side, levels: seq<Level>, o: Order, qty: int)
    requires LevelsValid(Opposite(s), levels)
    ensures var r := Match(s, levels, o, qty);
      forall i :: 0 <= i < |r.trades| ==> TradeFacts(s, levels, o, r.trades[i])
  {
    ValidIsPositive(Opposite(s), levels);
    ValidIsPriced(Opposite(s), levels);
    forall i | 0 <= i < |Match(s, levels, o, qty).trades|
      ensures TradeFacts(s, levels, o, Match(s, levels, o, qty).trades[i])
    {
      MatchTradeFacts(s, levels, o, qty, i);
    }
  }

  /** Price priority, first part: no trade is at a better price than the
      opposite side's best was when the walk began. */
  lemma {:induction false} MatchFromBest(s: Side, levels: seq<Level>, o: Order, qty: int, i: nat)
    requires LevelsValid(Opposite(s), levels)
    requires i < |Match(s, levels, o, qty).trades|
    ensures |levels| > 0 && !Better(Opposite(s), Match(s, levels, o, qty).trades[i].price, levels[0].price)
    decreases i
  {
    var opp := Opposite(s);
    ValidIsPositive(opp, levels);
    assert LevelValid(levels[0]);
    var head := levels[0].orders[0];
    var q := Min(qty, head.quantity);
    FillHeadValid(opp, levels, q);
    var next := FillHead(levels, q);
    var r := Match(s, levels, o, qty);
    var rest := Match(s, next, o, qty - q);
    assert r.trades == [MakeTrade(s, o, head, q)] + rest.trades;
    if i > 0 {
      assert r.trades[i] == rest.trades[i - 1];
      MatchFromBest(s, next, o, qty - q, i - 1);
      assert !Better(opp, next[0].price, levels[0].price);
    }
  }

  /** Price priority, second part: trades go from the best opposite price
      outwards, never back to a better one. */
  lemma {:induction false} MatchOrdered(s: Side, levels: seq<Level>, o: Order, qty: int, i: nat, j: nat)
    requires LevelsValid(Opposite(s), levels)
    requires i < j < |Match(s, levels, o, qty).trades|
    ensures var r := Match(s, levels, o, qty);
      !Better(Opposite(s), r.trades[j].price, r.trades[i].price)
    decreases i, 1
  {
    if i == 0 {
      var opp := Opposite(s);
      ValidIsPositive(opp, levels);
      assert LevelValid(levels[0]);
      assert Match(s, levels, o, qty).trades[0].price == levels[0].orders[0].price == levels[0].price;
      MatchFromBest(s, levels, o, qty, j);
    } else {
      OrderedLater(s, levels, o, qty, i, j);
    }
  }

  /** `MatchOrdered` for two trades after the first: both belong to the walk
      over what the first fill leaves. */
  lemma {:induction false} OrderedLater(s: Side, levels: seq<Level>, o: Order, qty: int, i: nat, j: nat)
    requires LevelsValid(Opposite(s), levels)
    requires 0 < i < j < |Match(s, levels, o, qty).trades|
    ensures var r := Match(s, levels, o, qty);
      !Better(Opposite(s), r.trades[j].price, r.trades[i].price)
    decreases i, 0
  {
    var opp := Opposite(s);
    ValidIsPositive(opp, levels);
    assert LevelValid(levels[0]);
    var head := levels[0].orders[0];
    var q := Min(qty, head.quantity);
    FillHeadValid(opp, levels, q);
    var next := FillHead(levels, q);
    var r := Match(s, levels, o, qty);
    var rest := Match(s, next, o, qty - q);
    assert r.trades == [MakeTrade(s, o, head, q)] + rest.trades;
    assert r.trades[j] == rest.trades[j - 1];
    assert r.trades[i] == rest.trades[i - 1];
    MatchOrdered(s, next, o, qty - q, i - 1, j - 1);
  }

  /** Price priority, third part: nothing left on the opposite side is better
      than the price of any trade that was made. */
  lemma {:induction false} MatchLeavesNoBetter(s: Side, levels: seq<Level>, o: Order, qty: int, i: nat, m: nat)
    requires LevelsValid(Opposite(s), levels)
    requires i < |Match(s, levels, o, qty).trades| && m < |Match(s, levels, o, qty).levels|
    ensures var r := Match(s, levels, o, qty);
      !Better(Opposite(s), r.levels[m].price, r.trades[i].price)
    decreases i
  {
    var opp := Opposite(s);
    ValidIsPositive(opp, levels);
    assert LevelValid(levels[0]);
    var head := levels[0].orders[0];
    var q := Min(qty, head.quantity);
    FillHeadValid(opp, levels, q);
    var next := FillHead(levels, q);
    var r := Match(s, levels, o, qty);
    var rest := Match(s, next, o, qty - q);
    assert r.trades == [MakeTrade(s, o, head, q)] + rest.trades;
    assert r.levels == rest.levels;
    if i > 0 {
      assert r.trades[i] == rest.trades[i - 1];
      MatchLeavesNoBetter(s, next, o, qty - q, i - 1, m);
    } else {
      MatchKeepsBelowBest(s, levels, o, qty);
    }
  }

  /** Nothing left on the opposite side after a walk is better than its best
      level was before. */
  lemma MatchKeepsBelowBest(s: Side, levels: seq<Level>, o: Order, qty: int)
    requires LevelsValid(Opposite(s), levels) && |levels| > 0
    ensures var r := Match(s, levels, o, qty);
      forall m :: 0 <= m < |r.levels| ==> !Better(Opposite(s), r.levels[m].price, levels[0].price)
  {
    ValidIsPositive(Opposite(s), levels);
    MatchRemainder(s, levels, o, qty);
    RemainderValid(Opposite(s), levels, Match(s, levels, o, qty).levels);
  }

  /** From a valid opposite side, matching leaves a valid side: in particular no
      empty level ever appears, so the C++ empty-level guard is never taken and
      the Python copies, which have no guard, behave the same. */
  lemma MatchKeepsValid(s: Side, levels: seq<Level>, o: Order, qty: int)
    requires LevelsValid(Opposite(s), levels)
    ensures LevelsValid(Opposite(s), Match(s, levels, o, qty).levels)
  {
    ValidIsPositive(Opposite(s), levels);
    MatchRemainder(s, levels, o, qty);
    RemainderValid(Opposite(s), levels, Match(s, levels, o, qty).levels);
  }
}
