/** The engine object: a dictionary from instrument to book, updated in place
    by `AddOrder`, and the two read-only projections of one instrument's book. */
module Engine {
  import opened Orders
  import opened Levels
  import opened Matching
  import opened Book

  /** One resting order as the app's snapshot lists it. */
  datatype Entry = Entry(id: string, quantity: int, timestamp: int)

  /** One price level of the app's snapshot: its entries in queue order. */
  datatype LevelState = LevelState(price: int, entries: seq<Entry>)

  /** The app's snapshot of one instrument. */
  datatype BookState = BookState(instrument: string, bids: seq<LevelState>, asks: seq<LevelState>, trades: seq<Trade>)

  /** One price level of the standalone engine's snapshot: how many orders rest there. */
  datatype LevelCount = LevelCount(price: int, count: nat)

  /** The standalone engine's snapshot of one instrument. */
  datatype BookCounts = BookCounts(instrument: string, bids: seq<LevelCount>, asks: seq<LevelCount>, trades: seq<Trade>)

  /** The book of `inst`, or the empty book an instrument gets on first use. */
  function BookOf(books: map<string, InstrumentBook>, inst: string): InstrumentBook {
    if inst in books then books[inst] else Empty
  }

  /** The snapshots look an instrument up through a default dictionary, which
      inserts an empty book for an unknown one; that insertion cannot be seen
      through any later lookup. */
  lemma DefaultInsertUnseen(books: map<string, InstrumentBook>, inst: string, other: string)
    requires inst !in books
    ensures BookOf(books[inst := Empty], other) == BookOf(books, other)
  {
  }

  function EntryOf(x: Order): Entry {
    Entry(x.id, x.quantity, x.timestamp)
  }

  function LevelStateOf(l: Level): LevelState {
    LevelState(l.price, seq(|l.orders|, k requires 0 <= k < |l.orders| => EntryOf(l.orders[k])))
  }

  function LevelCountOf(l: Level): LevelCount {
    LevelCount(l.price, |l.orders|)
  }

  /** True when the level states list the levels' prices and orders one for one, in order. */
  predicate Lists(v: seq<LevelState>, levels: seq<Level>) {
    && |v| == |levels|
    && forall i :: 0 <= i < |v| ==>
         && v[i].price == levels[i].price
         && |v[i].entries| == |levels[i].orders|
         && forall k :: 0 <= k < |v[i].entries| ==> v[i].entries[k] == EntryOf(levels[i].orders[k])
  }

  function StatesOf(levels: seq<Level>): (v: seq<LevelState>)
    ensures Lists(v, levels)
  {
    seq(|levels|, i requires 0 <= i < |levels| => LevelStateOf(levels[i]))
  }

  /** True when the counts give the levels' prices and queue lengths one for one. */
  predicate Counts(v: seq<LevelCount>, levels: seq<Level>) {
    && |v| == |levels|
    && forall i :: 0 <= i < |v| ==> v[i].price == levels[i].price && v[i].count == |levels[i].orders|
  }

  function CountsOf(levels: seq<Level>): (v: seq<LevelCount>)
    ensures Counts(v, levels)
  {
    seq(|levels|, i requires 0 <= i < |levels| => LevelCountOf(levels[i]))
  }

  /** Prices strictly descending for `Buy`, strictly ascending for `Sell`. */
  predicate InPriceOrder(s: Side, v: seq<LevelState>) {
    forall i, j :: 0 <= i < j < |v| ==> Better(s, v[i].price, v[j].price)
  }

  /** Every listed level holds at least one entry, all of positive quantity, in timestamp order. */
  predicate WellListed(v: seq<LevelState>) {
    forall i :: 0 <= i < |v| ==>
      && |v[i].entries| > 0
      && (forall k :: 0 <= k < |v[i].entries| ==> v[i].entries[k].quantity > 0)
      && (forall k, m :: 0 <= k < m < |v[i].entries| ==> v[i].entries[k].timestamp <= v[i].entries[m].timestamp)
  }

  /** Listing a valid side lists it best first, without empty levels, with
      positive quantities in time order. */
  lemma ListedValid(s: Side, v: seq<LevelState>, levels: seq<Level>)
    requires LevelsValid(s, levels) && Lists(v, levels)
    ensures InPriceOrder(s, v) && WellListed(v)
  {
    forall i | 0 <= i < |v| ensures SortedByTime(levels[i].orders) {
      assert LevelValid(levels[i]);
    }
  }

  lemma ListedValidIf(s: Side, v: seq<LevelState>, levels: seq<Level>)
    requires Lists(v, levels)
    ensures LevelsValid(s, levels) ==> InPriceOrder(s, v) && WellListed(v)
  {
    if LevelsValid(s, levels) {
      ListedValid(s, v, levels);
    }
  }

  /** The counts of a side are the lengths of its listed levels. */
  lemma CountsAgree(v: seq<LevelState>, c: seq<LevelCount>, levels: seq<Level>)
    requires Lists(v, levels) && Counts(c, levels)
    ensures |c| == |v|
    ensures forall i :: 0 <= i < |c| ==> c[i].price == v[i].price && c[i].count == |v[i].entries|
  {
  }

  /** The matching loop of `_add_buy_order` / `_add_sell_order` for an order on
      side `s` against the opposite side `opp`: while quantity remains and the
      best level crosses the limit, fill `min(remaining, head quantity)` with
      the head of the best level at its price, appending the trade to `prior`;
      pop a filled head and drop a level that empties (and, as the C++ does,
      drop an empty level found at the head without trading). The result is
      the walk `Match` describes. */
  method Walk(s: Side, opp: seq<Level>, o: Order, prior: seq<Trade>)
    returns (levels: seq<Level>, trades: seq<Trade>, remaining: int)
    requires AllPositive(opp)
    ensures levels == Match(s, opp, o, o.quantity).levels
    ensures trades == prior + Match(s, opp, o, o.quantity).trades
    ensures remaining == Match(s, opp, o, o.quantity).remaining
  {
    levels, trades, remaining := opp, prior, o.quantity;
    ghost var goal := Match(s, opp, o, o.quantity);
    ghost var done: seq<Trade> := [];
    while remaining > 0 && |levels| > 0
      invariant AllPositive(levels)
      invariant trades == prior + done
      invariant Continues(s, goal, levels, o, remaining, done)
      decreases remaining, |levels|
    {
      var best := levels[0];
      if !Crosses(s, best.price, o.price) {
        break;
      }
      if |best.orders| == 0 {
        MatchSkip(s, goal, levels, o, remaining, done);
        levels := levels[1..];
        continue;
      }
      var head := best.orders[0];
      var q := Min(remaining, head.quantity);
      MatchStep(s, goal, levels, o, remaining, done);
      trades := trades + [MakeTrade(s, o, head, q)];
      done := done + [MakeTrade(s, o, head, q)];
      remaining := remaining - q;
      var queue := TakeFromHead(best.orders, q);
      levels := ReplaceBest(levels, queue);
    }
    MatchDone(s, goal, levels, o, remaining, done);
  }

  /** Updating a key twice keeps only the second value. */
  lemma UpdateTwice<K, V>(m: map<K, V>, k: K, a: V, b: V)
    ensures m[k := a][k := b] == m[k := b]
  {
  }

  /** Every book of the dictionary satisfies the book invariant. */
  predicate AllValid(books: map<string, InstrumentBook>) {
    forall inst :: inst in books ==> Positive(books[inst]) && BookValid(books[inst])
  }

  lemma AllValidBookOf(books: map<string, InstrumentBook>, inst: string)
    requires AllValid(books)
    ensures Positive(BookOf(books, inst)) && BookValid(BookOf(books, inst))
  {
    EmptyValid();
  }

  lemma AllValidUpdate(books: map<string, InstrumentBook>, inst: string, b: InstrumentBook)
    requires AllValid(books) && BookValid(b)
    ensures AllValid(books[inst := b])
  {
    BookValidIsPositive(b);
  }

  class OrderBook {
    /** instrument -> book; an instrument is added on its first submission. */
    var books: map<string, InstrumentBook>

    /** Every book satisfies the book invariant. */
    ghost predicate Valid()
      reads this
    {
      AllValid(books)
    }

    constructor ()
      ensures Valid() && books == map[]
    {
      books := map[];
    }

    /** `add_order`: clear the instrument's trades, match and rest on the named
        side, and return this call's trades and the order's remaining quantity.
        Only the order's instrument changes. */
    method AddOrder(o: Order) returns (trades: seq<Trade>, remaining: int)
      requires Valid()
      modifies this
      ensures Valid()
      ensures books == old(books)[o.instrument := Submit(BookOf(old(books), o.instrument), o).book]
      ensures remaining == Submit(BookOf(old(books), o.instrument), o).remaining
      ensures trades == books[o.instrument].trades
    {
      ghost var before := BookOf(books, o.instrument);
      ClearTrades(o.instrument);
      SubmitDispatch(before, o);
      ghost var outcome := Submit(before, o);
      ghost var afterClear := books;
      if o.side == "BUY" {
        remaining := AddBuyOrder(o);
      } else if o.side == "SELL" {
        remaining := AddSellOrder(o);
      } else {
        remaining := o.quantity;
      }
      assert books == afterClear[o.instrument := outcome.book];
      UpdateTwice(old(books), o.instrument, before.(trades := []), outcome.book);
      trades := books[o.instrument].trades;
    }

    /** The reset at the start of `add_order`: the instrument's trade list is
        emptied (and its book created if it had none); nothing else changes. */
    method ClearTrades(inst: string)
      requires Valid()
      modifies this
      ensures Valid()
      ensures books == old(books)[inst := BookOf(old(books), inst).(trades := [])]
    {
      AllValidBookOf(books, inst);
      var cleared := BookOf(books, inst).(trades := []);
      assert BookValid(cleared);
      AllValidUpdate(books, inst, cleared);
      books := books[inst := cleared];
    }

    /** `_add_buy_order`: match against the asks, then rest on the bids. */
    method AddBuyOrder(o: Order) returns (remaining: int)
      requires Valid()
      modifies this
      ensures Valid()
      ensures books == old(books)[o.instrument := SideSubmit(Buy, BookOf(old(books), o.instrument), o).book]
      ensures remaining == SideSubmit(Buy, BookOf(old(books), o.instrument), o).remaining
    {
      remaining := MatchAndRest(Buy, o);
    }

    /** `_add_sell_order`: match against the bids, then rest on the asks. */
    method AddSellOrder(o: Order) returns (remaining: int)
      requires Valid()
      modifies this
      ensures Valid()
      ensures books == old(books)[o.instrument := SideSubmit(Sell, BookOf(old(books), o.instrument), o).book]
      ensures remaining == SideSubmit(Sell, BookOf(old(books), o.instrument), o).remaining
    {
      remaining := MatchAndRest(Sell, o);
    }

    /** The body both routines share, for an order on side `s`: walk the
        opposite side, appending to the instrument's trades, then rest a
        positive remainder on the own side. */
    method MatchAndRest(s: Side, o: Order) returns (remaining: int)
      requires Valid()
      modifies this
      ensures Valid()
      ensures books == old(books)[o.instrument := SideSubmit(s, BookOf(old(books), o.instrument), o).book]
      ensures remaining == SideSubmit(s, BookOf(old(books), o.instrument), o).remaining
    {
      var book := BookOf(books, o.instrument);
      AllValidBookOf(books, o.instrument);
      SideSubmitValid(s, book, o);
      ghost var out := SideSubmit(s, book, o);
      var opposite, trades;
      opposite, trades, remaining := Walk(s, Opp(s, book), o, book.trades);
      var own := Own(s, book);
      if remaining > 0 {
        own := Rest(s, own, o.(quantity := remaining));
      }
      var updated := WithSides(s, own, opposite, trades);
      SideSubmitOf(s, book, o, own, opposite, trades, remaining);
      AllValidUpdate(books, o.instrument, updated);
      books := books[o.instrument := updated];
    }

    /** The app's `get_order_book_state`: bids highest first, asks lowest
        first, each level's orders in queue order, and the last submission's
        trades; an instrument never submitted to has an empty book. */
    function OrderBookState(inst: string): (v: BookState)
      reads this
      ensures v.instrument == inst
      ensures Lists(v.bids, BookOf(books, inst).bids) && Lists(v.asks, BookOf(books, inst).asks)
      ensures v.trades == BookOf(books, inst).trades
      ensures Valid() ==> InPriceOrder(Buy, v.bids) && InPriceOrder(Sell, v.asks)
      ensures Valid() ==> WellListed(v.bids) && WellListed(v.asks)
      ensures inst !in books ==> v.bids == [] && v.asks == [] && v.trades == []
    {
      var b := BookOf(books, inst);
      var v := BookState(inst, StatesOf(b.bids), StatesOf(b.asks), b.trades);
      ListedValidIf(Buy, v.bids, b.bids);
      ListedValidIf(Sell, v.asks, b.asks);
      v
    }

    /** The standalone engine's `get_order_book_state`: per-level order counts,
        bids highest first, asks lowest first, and the last submission's trades. */
    function OrderBookCounts(inst: string): (v: BookCounts)
      reads this
      ensures v.instrument == inst
      ensures Counts(v.bids, BookOf(books, inst).bids) && Counts(v.asks, BookOf(books, inst).asks)
      ensures v.trades == BookOf(books, inst).trades
      ensures Valid() ==> forall i, j :: 0 <= i < j < |v.bids| ==> v.bids[i].price > v.bids[j].price
      ensures Valid() ==> forall i, j :: 0 <= i < j < |v.asks| ==> v.asks[i].price < v.asks[j].price
      ensures Valid() ==> forall i :: 0 <= i < |v.bids| ==> v.bids[i].count > 0
      ensures Valid() ==> forall i :: 0 <= i < |v.asks| ==> v.asks[i].count > 0
    {
      var b := BookOf(books, inst);
      BookCounts(inst, CountsOf(b.bids), CountsOf(b.asks), b.trades)
    }
  }
}
