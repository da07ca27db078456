/** One instrument's book and what one submission does to it, as functions,
    with the invariants a submission keeps and the facts it promises. */
module Book {
  import opened Orders
  import opened Levels
  import opened Matching

  /** An instrument's book: bid levels best (highest) first, ask levels best
      (lowest) first, and the trades of the most recent submission. */
  datatype InstrumentBook = InstrumentBook(bids: seq<Level>, asks: seq<Level>, trades: seq<Trade>)

  /** The book an instrument gets on first use. */
  const Empty: InstrumentBook := InstrumentBook([], [], [])

  /** The side an order on side `s` rests on. */
  function Own(s: Side, b: InstrumentBook): seq<Level> {
    match s
    case Buy => b.bids
    case Sell => b.asks
  }

  /** The side an order on side `s` matches against. */
  function Opp(s: Side, b: InstrumentBook): seq<Level> {
    Own(Opposite(s), b)
  }

  /** The book with side `s` set to `own`, the other side to `opp`, and `trades`. */
  function WithSides(s: Side, own: seq<Level>, opp: seq<Level>, trades: seq<Trade>): (b: InstrumentBook)
    ensures Own(s, b) == own && Opp(s, b) == opp && b.trades == trades
  {
    match s
    case Buy => InstrumentBook(own, opp, trades)
    case Sell => InstrumentBook(opp, own, trades)
  }

  /** Every resting quantity on both sides is positive. */
  predicate Positive(b: InstrumentBook) {
    AllPositive(b.bids) && AllPositive(b.asks)
  }

  /** The best bid is below the best ask whenever both sides hold orders. */
  predicate Uncrossed(b: InstrumentBook) {
    |b.bids| == 0 || |b.asks| == 0 || b.bids[0].price < b.asks[0].price
  }

  /** The book invariant: both sides valid (one non-empty, time-sorted level per
      price, positive quantities, best first) and the book uncrossed. */
  predicate BookValid(b: InstrumentBook) {
    LevelsValid(Buy, b.bids) && LevelsValid(Sell, b.asks) && Uncrossed(b)
  }

  lemma BookValidIsPositive(b: InstrumentBook)
    requires BookValid(b)
    ensures Positive(b)
  {
    ValidIsPositive(Buy, b.bids);
    ValidIsPositive(Sell, b.asks);
  }

  lemma EmptyValid()
    ensures BookValid(Empty) && Positive(Empty)
  {
  }

  /** What a submission leaves: the instrument's book and the incoming order's
      remaining quantity (the source lowers the caller's order in place). */
  datatype Outcome = Outcome(book: InstrumentBook, remaining: int)

  /** `_add_buy_order` / `_add_sell_order`: walk the opposite side, append this
      walk's trades, then rest a positive remainder at its limit on its own side. */
  function SideSubmit(s: Side, b: InstrumentBook, o: Order): Outcome
    requires Positive(b)
  {
    var r := Match(s, Opp(s, b), o, o.quantity);
    var own := if r.remaining > 0 then Rest(s, Own(s, b), o.(quantity := r.remaining)) else Own(s, b);
    Outcome(WithSides(s, own, r.levels, b.trades + r.trades), r.remaining)
  }

  /** `add_order`: clear the instrument's trades, then dispatch on the exact
      side strings; any other side neither matches nor rests. */
  function Submit(b: InstrumentBook, o: Order): Outcome
    requires Positive(b)
  {
    var cleared := b.(trades := []);
    match SideOf(o.side)
    case None => Outcome(cleared, o.quantity)
    case Some(s) => SideSubmit(s, cleared, o)
  }

  /** An order whose quantity is not positive neither trades nor rests: the
      walk's loop condition fails at once and no remainder is left to rest.
      Both sides stay as they were and the quantity is returned unchanged. */
  lemma SubmitNonPositive(b: InstrumentBook, o: Order)
    requires Positive(b) && o.quantity <= 0
    ensures Submit(b, o).remaining == o.quantity && Submit(b, o).book.trades == []
    ensures Submit(b, o).book.bids == b.bids && Submit(b, o).book.asks == b.asks
  {
  }

  /** The outcome of a side submission, from the walk's results and the own
      side after resting. */
  lemma SideSubmitOf(s: Side, b: InstrumentBook, o: Order, own: seq<Level>, opp: seq<Level>,
                     trades: seq<Trade>, remaining: int)
    requires Positive(b)
    requires opp == Match(s, Opp(s, b), o, o.quantity).levels
    requires trades == b.trades + Match(s, Opp(s, b), o, o.quantity).trades
    requires remaining == Match(s, Opp(s, b), o, o.quantity).remaining
    requires own == if remaining > 0 then Rest(s, Own(s, b), o.(quantity := remaining)) else Own(s, b)
    ensures SideSubmit(s, b, o) == Outcome(WithSides(s, own, opp, trades), remaining)
  {
  }

  /** The dispatch of `add_order` on the exact side strings, after the reset. */
  lemma SubmitDispatch(b: InstrumentBook, o: Order)
    requires Positive(b)
    ensures o.side == "BUY" ==> Submit(b, o) == SideSubmit(Buy, b.(trades := []), o)
    ensures o.side == "SELL" ==> Submit(b, o) == SideSubmit(Sell, b.(trades := []), o)
    ensures o.side != "BUY" && o.side != "SELL" ==> Submit(b, o) == Outcome(b.(trades := []), o.quantity)
  {
  }

  // ---------------------------------------------------------------------------
  // The book invariant

  lemma SideValid(s: Side, b: InstrumentBook)
    requires BookValid(b)
    ensures LevelsValid(s, Own(s, b)) && LevelsValid(Opposite(s), Opp(s, b))
  {
  }

  /** The book seen from side `s`: an order at the own side's best price
      would not trade with the opposite side's best. */
  predicate UncrossedFrom(s: Side, own: seq<Level>, opp: seq<Level>) {
    |own| == 0 || |opp| == 0 || !Crosses(s, opp[0].price, own[0].price)
  }

  lemma UncrossedSides(s: Side, b: InstrumentBook)
    ensures Uncrossed(b) <==> UncrossedFrom(s, Own(s, b), Opp(s, b))
  {
  }

  /** A submission keeps the book invariant: no empty level, positive
      quantities, time-sorted levels, best first, and uncrossed (a crossing
      remainder would have traded). */
  lemma SideSubmitValid(s: Side, b: InstrumentBook, o: Order)
    requires BookValid(b)
    ensures Positive(b) && BookValid(SideSubmit(s, b, o).book)
  {
    BookValidIsPositive(b);
    SideValid(s, b);
    var own, opp := Own(s, b), Opp(s, b);
    var r := Match(s, opp, o, o.quantity);
    MatchKeepsValid(s, opp, o, o.quantity);
    MatchStops(s, opp, o, o.quantity);
    MatchRemainder(s, opp, o, o.quantity);
    var own' := if r.remaining > 0 then Rest(s, own, o.(quantity := r.remaining)) else own;
    if r.remaining > 0 {
      RestValid(s, own, o.(quantity := r.remaining));
      RestHead(s, own, o.(quantity := r.remaining));
    }
    var b' := SideSubmit(s, b, o).book;
    assert Own(s, b') == own' && Opp(s, b') == r.levels;
    UncrossedSides(s, b);
    if |own'| > 0 && |r.levels| > 0 {
      MatchKeepsBelowBest(s, opp, o, o.quantity);
      assert !Better(Opposite(s), r.levels[0].price, opp[0].price);
      if r.remaining > 0 {
        assert !Crosses(s, r.levels[0].price, o.price);
      }
    }
    UncrossedSides(s, b');
  }

  lemma SubmitValid(b: InstrumentBook, o: Order)
    requires BookValid(b)
    ensures Positive(b) && BookValid(Submit(b, o).book)
  {
    BookValidIsPositive(b);
    match SideOf(o.side)
    case None =>
    case Some(s) => SideSubmitValid(s, b.(trades := []), o);
  }

  // ---------------------------------------------------------------------------
  // What one submission promises

  /** Quantity is conserved: the traded quantity plus the remainder is the
      submitted quantity, and the remainder lies between 0 and the submitted
      quantity whenever that is not negative. */
  lemma SubmitConserves(b: InstrumentBook, o: Order)
    requires Positive(b)
    ensures TradeVolume(Submit(b, o).book.trades) + Submit(b, o).remaining == o.quantity
    ensures o.quantity >= 0 ==> 0 <= Submit(b, o).remaining <= o.quantity
  {
    match SideOf(o.side)
    case None =>
    case Some(s) =>
      var cleared := b.(trades := []);
      assert Opp(s, cleared) == Opp(s, b);
      MatchConserves(s, Opp(s, b), o, o.quantity);
      assert Submit(b, o).book.trades == Match(s, Opp(s, b), o, o.quantity).trades;
  }

  /** Both sides give exactly what was traded: the opposite side loses the
      traded quantity and the own side gains exactly the remainder when it rests. */
  lemma SideSubmitVolumes(s: Side, b: InstrumentBook, o: Order)
    requires BookValid(b)
    ensures Positive(b)
    ensures var out := SideSubmit(s, b, o);
      && Volume(Opp(s, out.book)) == Volume(Opp(s, b)) - TradeVolume(out.book.trades[|b.trades|..])
      && Volume(Own(s, out.book)) == Volume(Own(s, b)) + (if out.remaining > 0 then out.remaining else 0)
  {
    BookValidIsPositive(b);
    SideValid(s, b);
    var r := Match(s, Opp(s, b), o, o.quantity);
    MatchConserves(s, Opp(s, b), o, o.quantity);
    var out := SideSubmit(s, b, o);
    assert out.book.trades[|b.trades|..] == r.trades;
    if r.remaining > 0 {
      RestVolume(s, Own(s, b), o.(quantity := r.remaining));
    }
  }

  /** `add_order` returns only this call's trades: they are the walk's trades,
      whatever trades the book held before. */
  lemma SubmitForgetsPriorTrades(b: InstrumentBook, o: Order, s: Side)
    requires Positive(b) && SideOf(o.side) == Some(s)
    ensures Submit(b, o).book.trades == Match(s, Opp(s, b), o, o.quantity).trades
  {
  }

  /** A side other than "BUY" or "SELL" changes nothing but the cleared trades
      and leaves the order's quantity as it was. */
  lemma SubmitUnknownSide(b: InstrumentBook, o: Order)
    requires Positive(b) && SideOf(o.side).None?
    ensures Submit(b, o).book.bids == b.bids && Submit(b, o).book.asks == b.asks
    ensures Submit(b, o).book.trades == [] && Submit(b, o).remaining == o.quantity
  {
  }

  /** Every trade of a submission is at a resting order's price, within the
      incoming limit, of positive quantity, names the incoming order's id on its
      own side and a resting order on the other, and trades run from the best
      opposite price outwards, leaving nothing better behind. */
  lemma SubmitTrades(b: InstrumentBook, o: Order, s: Side)
    requires BookValid(b) && SideOf(o.side) == Some(s)
    ensures Positive(b)
    ensures var out := Submit(b, o);
      && (forall i :: 0 <= i < |out.book.trades| ==> TradeFacts(s, Opp(s, b), o, out.book.trades[i]))
      && (forall i, j :: 0 <= i < j < |out.book.trades| ==>
            !Better(Opposite(s), out.book.trades[j].price, out.book.trades[i].price))
      && (forall i, m :: 0 <= i < |out.book.trades| && 0 <= m < |Opp(s, out.book)| ==>
            !Better(Opposite(s), Opp(s, out.book)[m].price, out.book.trades[i].price))
  {
    BookValidIsPositive(b);
    SideValid(s, b);
    var opp := Opp(s, b);
    var r := Match(s, opp, o, o.quantity);
    var out := Submit(b, o);
    assert out.book.trades == r.trades && Opp(s, out.book) == r.levels;
    ValidIsPositive(Opposite(s), opp);
    ValidIsPriced(Opposite(s), opp);
    forall i | 0 <= i < |r.trades| ensures TradeFacts(s, opp, o, r.trades[i]) {
      MatchTradeFacts(s, opp, o, o.quantity, i);
    }
    forall i, j | 0 <= i < j < |r.trades|
      ensures !Better(Opposite(s), r.trades[j].price, r.trades[i].price)
    {
      MatchOrdered(s, opp, o, o.quantity, i, j);
    }
    forall i, m | 0 <= i < |r.trades| && 0 <= m < |r.levels|
      ensures !Better(Opposite(s), r.levels[m].price, r.trades[i].price)
    {
      MatchLeavesNoBetter(s, opp, o, o.quantity, i, m);
    }
  }

  /** First-in, first-out on the opposite side: the submission removes whole
      best levels and consumes the next one from its front, nothing else. */
  lemma SubmitFifo(b: InstrumentBook, o: Order, s: Side)
    requires Positive(b) && SideOf(o.side) == Some(s)
    ensures Remainder(Opp(s, b), Opp(s, Submit(b, o).book))
  {
    MatchRemainder(s, Opp(s, b), o, o.quantity);
  }

  /** A positive remainder joins the queue at its own limit price behind every
      order with an earlier or equal timestamp and ahead of every later one;
      every other price level of its side is unchanged. Without a remainder
      the own side is untouched. */
  lemma SubmitRests(b: InstrumentBook, o: Order, s: Side)
    requires BookValid(b) && SideOf(o.side) == Some(s)
    ensures Positive(b)
    ensures var out := Submit(b, o);
      && (out.remaining > 0 ==>
            LevelAt(Own(s, out.book), o.price) == InsertByTime(LevelAt(Own(s, b), o.price), o.(quantity := out.remaining)))
      && (out.remaining > 0 ==>
            forall p :: p != o.price ==> LevelAt(Own(s, out.book), p) == LevelAt(Own(s, b), p))
      && (out.remaining <= 0 ==> Own(s, out.book) == Own(s, b))
  {
    BookValidIsPositive(b);
    SideValid(s, b);
    var r := Match(s, Opp(s, b), o, o.quantity);
    if r.remaining > 0 {
      RestLevelAt(s, Own(s, b), o.(quantity := r.remaining));
    }
  }
}
