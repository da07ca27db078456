/** Worked examples of submissions: a full fill with a resting remainder, a
    sell resting in an empty book, a partial fill, time priority within a
    level, a non-crossing order and a dropped side. Prices are in cents. */
module Scenarios {
  import opened Orders
  import opened Levels
  import opened Matching
  import opened Book

  /** SPY: a resting SELL S1 of 10 at 100.00 and an incoming BUY B1 of 15 at
      100.00 trade 10 at 100.00; the asks empty and B1 rests with 5. */
  lemma SpyFillAndRest()
    ensures var s1 := Order("S1", "SPY", "SELL", 10000, 10, 1);
      var b1 := Order("B1", "SPY", "BUY", 10000, 15, 2);
      var b := InstrumentBook([], [Level(10000, [s1])], []);
      Submit(b, b1) == Outcome(
        InstrumentBook([Level(10000, [b1.(quantity := 5)])], [], [Trade("SPY", "B1", "S1", 10000, 10)]),
        5)
  {
  }

  /** MSFT: a SELL of 5 at 50.00 into an empty book makes no trade and rests alone. */
  lemma MsftRestsInEmptyBook()
    ensures var s1 := Order("S1", "MSFT", "SELL", 5000, 5, 1);
      Submit(Empty, s1) == Outcome(InstrumentBook([], [Level(5000, [s1])], []), 5)
  {
  }

  /** A BUY of 50 at 101.00 against a single resting SELL of 30 at 100.00:
      one trade of 30 at the resting price, and a BUY of 20 rests at 101.00. */
  lemma PartialFillPersists()
    ensures var s1 := Order("S1", "SPY", "SELL", 10000, 30, 1);
      var b1 := Order("B1", "SPY", "BUY", 10100, 50, 2);
      Submit(InstrumentBook([], [Level(10000, [s1])], []), b1) == Outcome(
        InstrumentBook([Level(10100, [b1.(quantity := 20)])], [], [Trade("SPY", "B1", "S1", 10000, 30)]),
        20)
  {
  }

  /** Two SELLs at the same price: the earlier one (timestamp 1) is filled
      first and the later one stays, untouched. */
  lemma EarlierOrderFilledFirst()
    ensures var s1 := Order("S1", "SPY", "SELL", 10000, 10, 1);
      var s2 := Order("S2", "SPY", "SELL", 10000, 10, 2);
      var b1 := Order("B1", "SPY", "BUY", 10000, 10, 3);
      Submit(InstrumentBook([], [Level(10000, [s1, s2])], []), b1) == Outcome(
        InstrumentBook([], [Level(10000, [s2])], [Trade("SPY", "B1", "S1", 10000, 10)]),
        0)
  {
  }

  /** A SELL above the best bid does not cross: it rests, and the previous
      submission's trades are cleared. */
  lemma NoCrossRests()
    ensures var b1 := Order("B1", "SPY", "BUY", 9900, 10, 1);
      var s1 := Order("S1", "SPY", "SELL", 10000, 10, 2);
      var t := Trade("SPY", "B0", "S0", 9900, 1);
      Submit(InstrumentBook([Level(9900, [b1])], [], [t]), s1) == Outcome(
        InstrumentBook([Level(9900, [b1])], [Level(10000, [s1])], []),
        10)
  {
  }

  /** A side string the engine does not recognise neither matches nor rests. */
  lemma UnknownSideDropped()
    ensures var s1 := Order("S1", "SPY", "SELL", 10000, 10, 1);
      var h := Order("H1", "SPY", "HOLD", 10000, 10, 2);
      Submit(InstrumentBook([], [Level(10000, [s1])], []), h) == Outcome(
        InstrumentBook([], [Level(10000, [s1])], []),
        10)
  {
  }
}
