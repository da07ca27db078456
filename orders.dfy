/** Orders and trades: the value types of the matching engine.

    Prices and timestamps are integer ticks: the engine only compares and
    copies them, it never computes with them. */
module Orders {

  /** Which side of the book an order is on. */
  datatype Side = Buy | Sell

  /** An order as the engine sees it. `quantity` is the remaining, unfilled
      quantity; matching lowers it. `side` stays a string because the engine
      dispatches on the exact strings "BUY" and "SELL" and drops anything else. */
  datatype Order = Order(
    id: string,
    instrument: string,
    side: string,
    price: int,
    quantity: int,
    timestamp: int)

  /** One execution between a buy order and a sell order. */
  datatype Trade = Trade(
    instrument: string,
    buyId: string,
    sellId: string,
    price: int,
    quantity: int)

  function Opposite(s: Side): (r: Side)
    ensures r != s
  {
    match s
    case Buy => Sell
    case Sell => Buy
  }

  /** The side an order string names, or None when the engine would drop the order. */
  function SideOf(side: string): (r: Option<Side>)
    ensures r == Some(Buy) <==> side == "BUY"
    ensures r == Some(Sell) <==> side == "SELL"
    ensures r.None? <==> side != "BUY" && side != "SELL"
  {
    if side == "BUY" then Some(Buy)
    else if side == "SELL" then Some(Sell)
    else None
  }

  datatype Option<T> = None | Some(value: T)

  predicate IsLowerAscii(c: char) {
    'a' <= c <= 'z'
  }

  /** ASCII upper-casing of one character, as `::toupper` does in the C locale. */
  function UpperChar(c: char): (r: char)
    ensures !IsLowerAscii(r)
    ensures !IsLowerAscii(c) ==> r == c
    ensures IsLowerAscii(c) ==> r as int == c as int - 32
  {
    if IsLowerAscii(c) then (c as int - 32) as char else c
  }

  /** True when a string has no lower-case ASCII letter left. */
  predicate IsUpper(s: string) {
    forall i :: 0 <= i < |s| ==> !IsLowerAscii(s[i])
  }

  /** Upper-casing of a symbol or side string. */
  function Upper(s: string): (r: string)
    ensures |r| == |s| && IsUpper(r)
    ensures forall i :: 0 <= i < |s| && !IsLowerAscii(s[i]) ==> r[i] == s[i]
    ensures forall i :: 0 <= i < |s| && IsLowerAscii(s[i]) ==> r[i] as int == s[i] as int - 32
  {
    seq(|s|, i requires 0 <= i < |s| => UpperChar(s[i]))
  }

  /** Upper-casing leaves an already upper-case string alone. */
  lemma UpperFixesUpper(s: string)
    requires IsUpper(s)
    ensures Upper(s) == s
  {
    assert forall i :: 0 <= i < |s| ==> Upper(s)[i] == s[i];
  }

  /** Normalisation is idempotent: constructing an order from an already
      constructed order's fields changes neither instrument nor side. */
  lemma UpperIdempotent(s: string)
    ensures Upper(Upper(s)) == Upper(s)
  {
    UpperFixesUpper(Upper(s));
  }

  /** Two spellings that differ only in ASCII case normalise to the same string. */
  lemma UpperOfBuySpellings()
    ensures Upper("buy") == "BUY" && Upper("Buy") == "BUY" && Upper("BUY") == "BUY"
    ensures Upper("sell") == "SELL" && Upper("Sell") == "SELL"
  {
  }

  /** The order constructor. `timestamp == 0` means "not supplied" (the C++
      default of 0.0; in Python both None and 0.0 are falsy) and is replaced by
      `clock`, the wall-clock reading, which the model takes as an input. */
  function NewOrder(id: string, instrument: string, side: string, price: int, quantity: int,
                    timestamp: int, clock: int): (o: Order)
    ensures o.id == id && o.price == price && o.quantity == quantity
    ensures o.instrument == Upper(instrument) && o.side == Upper(side)
    ensures IsUpper(o.instrument) && IsUpper(o.side)
    ensures timestamp != 0 ==> o.timestamp == timestamp
    ensures timestamp == 0 ==> o.timestamp == clock
  {
    Order(id, Upper(instrument), Upper(side), price, quantity,
          if timestamp != 0 then timestamp else clock)
  }

  /** A lower-case side is recognised after construction: "buy" dispatches as a buy. */
  lemma NewOrderRecognisesLowerCaseSide(id: string, instrument: string, price: int, quantity: int,
                                        timestamp: int, clock: int)
    ensures SideOf(NewOrder(id, instrument, "buy", price, quantity, timestamp, clock).side) == Some(Buy)
    ensures SideOf(NewOrder(id, instrument, "sell", price, quantity, timestamp, clock).side) == Some(Sell)
  {
    UpperOfBuySpellings();
  }
}
