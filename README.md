# Price-time-priority order matching engine

This project models the limit order matching engine of the order_book
repository and proves properties of that model. The same algorithm appears
three times in the repository: the standalone Python engine, its copy inside
the web app, and a C++ port. One model covers all three.

The engine keeps a book for each instrument. A book holds bids and asks, each
a set of price levels, and each level is a queue of resting orders. An
incoming order is handled like this:

- It walks the opposite side from the best price. That is the lowest ask for
  a buy, the highest bid for a sell.
- The walk continues while that best price crosses the order's limit. Equal
  prices cross.
- Each step fills `min(remaining, head quantity)` against the oldest order of
  the best level. The trade is at the resting order's price.
- A filled resting order is popped, and a level that empties is deleted.
- Any positive remainder rests on the order's own side at its limit price. It
  is appended to that level, and the level is re-sorted by timestamp.

`add_order` first clears the instrument's trade list. It then dispatches on
the exact strings `"BUY"` and `"SELL"` and returns only this call's trades.
Two snapshot functions project one instrument's book:

- the standalone engine's snapshot gives per-level order counts;
- the app's snapshot lists `(id, quantity, timestamp)` for each level.

Modules:

- `Orders` (orders.dfy):
  - the `Order` and `Trade` values;
  - the side dispatch;
  - ASCII upper-casing;
  - the order constructor.
- `Levels` (levels.dfy):
  - price levels kept as a sequence, best first;
  - the stable timestamp sort;
  - resting a remainder (`Rest`).
- `Matching` (matching.dfy):
  - the matching walk as a function (`Match`);
  - conservation, stopping, first-in-first-out, trade facts and price priority.
- `Book` (book.dfy):
  - one instrument's book;
  - a whole submission as functions (`SideSubmit`, `Submit`);
  - the book invariant and what each submission promises.
- `Engine` (engine.dfy):
  - the `OrderBook` class, whose dictionary field `books` its methods update
    in place;
  - the matching loop as a `while` loop (`Walk`), proved equal to `Match`;
  - the two snapshots.
- `Scenarios` (scenarios.dfy): concrete submissions worked through the model.

Each side is modelled as a sequence of levels, best price first: bids strictly
descending, asks strictly ascending. This is the order in which the C++
`std::map` iterates (with `std::greater` for bids). Its head is the level that
the Python picks with `min`/`max` over the dictionary keys. `Levels.LevelAt`
gives the dictionary view of a side, from price to queue.

Where the copies differ:

- **Empty-level guard.** The C++ drops an empty level found at the head
  without trading. `Match` and `Walk` include that branch. `MatchKeepsValid`
  shows that no empty level ever exists in a valid book, so the Python copies,
  which lack the guard, behave the same.
- **Sort stability.** The Python re-sorts a level with the stable `list.sort`.
  `SortByTime` is that stable sort. C++ uses the unstable `std::sort`; its
  result is also sorted and a permutation, and those are the two facts
  `SortByTime` guarantees.
- **Trade list.** The C++ returns a copy of the trade list. The Python returns
  the same list the book holds. The model returns the value.

Edge cases the code handles without an error:

- An order with a quantity of zero or less is not rejected. The walk's loop
  condition fails at once and nothing is left to rest, so such an order makes
  no trade, changes neither side and keeps its quantity (`SubmitNonPositive`).
- An order with a side other than `"BUY"` or `"SELL"` is silently dropped
  (`SubmitUnknownSide`).

## Model

| member | source | states |
|---|---|---|
| Orders.SideOf | order_book.cpp:135-139 | An order is a buy exactly when its side is the string "BUY", a sell exactly when it is "SELL", and is dropped for any other string |
| Orders.Upper | order_book.cpp:23-24 | Upper-casing keeps the length, leaves no lower-case ASCII letter, turns each of a–z into its capital and leaves every other character unchanged |
| Orders.UpperIdempotent | api/app.py:14-15 | Upper-casing an upper-cased symbol or side changes nothing |
| Orders.NewOrder | order_book.py:9-15 | The constructed order keeps id, price and quantity, has upper-cased instrument and side, and takes the clock reading exactly when the supplied timestamp is 0 |
| Orders.NewOrderRecognisesLowerCaseSide | api/app.py:12-18 | An order built with side "buy" or "sell" is dispatched as a buy or a sell |
| Levels.SortByTime | order_book.py:71 | Re-sorting a level gives a permutation of it in non-decreasing timestamp order |
| Levels.SortAfterAppend | order_book.py:70-71 | Appending to a time-sorted level and re-sorting is the same as inserting the order behind every order with an earlier or equal timestamp |
| Levels.InsertByTimeSplits | order_book.py:94-96 | An inserted order goes after every order not younger than it and before the first strictly younger one, and the rest of the queue is kept in order |
| Levels.InsertByTimeIndex | order_book.py:70-71 | Inserting puts the order at its insertion point, keeps every order before it in place and shifts every order after it back by one |
| Levels.InsertByTimeMultiset | order_book.py:70-71 | Inserting adds exactly the new order and keeps every queued one |
| Levels.InsertByTimeSorted | order_book.cpp:126-128 | Inserting into a time-sorted level keeps it time-sorted, and every order behind the new one is strictly younger |
| Levels.InsertAtBack | api/app.py:75-76 | An order no older than anything queued goes to the back of the level (plain FIFO) |
| Levels.SortSorted | api/app.py:100 | Re-sorting a level that is already in time order leaves it unchanged |
| Levels.RestValid | order_book.py:69-71 | Resting a positive remainder keeps the side valid: one non-empty time-sorted level per price, positive quantities, best first |
| Levels.RestHead | order_book.cpp:90-94 | After resting, the side is non-empty and its best level is at the order's price or is the old best |
| Levels.RestLevelAt | order_book.py:94-96 | After resting, the queue at the order's limit price is the old queue with the order inserted by time, and every other price's queue is unchanged |
| Levels.RestVolume | api/app.py:98-100 | Resting adds exactly the remainder's quantity to the side |
| Matching.MakeTradeFacts | order_book.py:59-62 | A trade records the incoming order's instrument, the resting order's price, the filled quantity, the incoming id on the incoming side and the resting id on the other |
| Matching.MatchUnfold | order_book.py:59-68 | On a crossing, non-empty best level the walk trades `min(remaining, head quantity)` (positive, at most the head's quantity) with the head at its price, then continues over what that fill leaves with the remaining quantity lowered by it |
| Matching.FillHeadVolume | order_book.py:60-64 | Filling `q` against the head order lowers the side's total by exactly `q` |
| Matching.FillHeadPositive | order_book.cpp:118-123 | One fill leaves every remaining resting quantity positive |
| Matching.FillHeadRemainder | order_book.cpp:83-88 | One fill leaves a `Remainder` of the side: everything behind the new best level is untouched and that level's queue is the old one consumed from the front, which is the shape the walk's induction carries (the exact effect of one fill is `FillHeadShape`) |
| Matching.FillHeadShape | order_book.py:63-68 | A partial fill lowers the head order's quantity by the traded amount; a full fill pops the head and deletes the level exactly when the head was its only order; every other order and level is unchanged |
| Matching.RemainderValid | api/app.py:70-73 | Consuming the front of a valid side leaves a valid side whose levels are all no better than the old best |
| Matching.MatchConserves | order_book.py:55-68 | Traded quantity plus the remainder equals the submitted quantity; the remainder lies between 0 and the submitted quantity; the opposite side loses exactly the traded quantity |
| Matching.MatchStops | order_book.py:55-58 | The walk stops only when nothing remains, the opposite side is empty, or its best price no longer crosses the limit |
| Matching.MatchRemainder | order_book.py:59-68 | The walk only deletes whole best levels and consumes the next level from the front; everything behind is untouched |
| Matching.MatchTradeFacts | order_book.py:59-62 | On any side where each resting order sits at its level's price (empty levels allowed, as the C++ guard does), each trade has positive quantity, the order's instrument, a price that crosses the limit and belongs to a resting order, the incoming id on its own side and that resting order's id on the other |
| Matching.MatchTrades | order_book.py:84-87 | Every trade of a walk over a valid side has the facts of `MatchTradeFacts` |
| Matching.MatchFromBest | order_book.cpp:69-71 | No trade is at a better price than the opposite side's best at the start |
| Matching.MatchOrdered | api/app.py:60-64 | Each trade is at a price no better than every earlier trade's |
| Matching.MatchLeavesNoBetter | order_book.py:80-83 | Nothing left on the opposite side is better than any price traded |
| Matching.MatchKeepsBelowBest | order_book.cpp:104-106 | Nothing left on the opposite side is better than its best before the walk |
| Matching.MatchKeepsValid | order_book.cpp:73-76 | From a valid side the walk leaves a valid side, so no empty level appears and the empty-level guard is never taken |
| Book.EmptyValid | order_book.py:36 | The book an instrument gets on first use satisfies the book invariant |
| Book.SubmitDispatch | order_book.py:41-45 | `add_order` clears the trades and then runs the buy path exactly for side "BUY", the sell path exactly for "SELL", and for any other side returns the cleared book and the unchanged quantity |
| Book.SideSubmitOf | order_book.py:48-71 | A side submission's outcome is the walk's opposite side, the book's trades followed by the walk's trades, the walk's remainder, and the own side with that remainder rested when it is positive |
| Book.SideSubmitValid | order_book.cpp:62-95 | A buy or sell submission keeps the book invariant: both sides valid and the best bid below the best ask |
| Book.SubmitValid | order_book.py:38-46 | `add_order` keeps the book invariant for every order |
| Book.SubmitConserves | api/app.py:45-52 | The returned trades' quantities plus the remainder equal the submitted quantity; the remainder lies between 0 and the submitted quantity |
| Book.SideSubmitVolumes | order_book.py:73-96 | The opposite side loses exactly the traded quantity; the own side gains exactly the positive remainder, or nothing |
| Book.SubmitForgetsPriorTrades | order_book.py:41-46 | The trades left in the book, and returned, are exactly this walk's trades, whatever the book held before |
| Book.SubmitNonPositive | order_book.py:55 | An order with quantity zero or less makes no trade, leaves both sides unchanged and keeps its quantity |
| Book.SubmitUnknownSide | order_book.py:42-45 | An unrecognised side changes neither bids nor asks, returns no trades and leaves the quantity as it was |
| Book.SubmitTrades | api/app.py:54-76 | Every returned trade is at a resting order's price, within the limit and of positive quantity; trades run from the best price outwards, and nothing better is left behind |
| Book.SubmitFifo | order_book.cpp:77-88 | On the opposite side, only whole best levels are removed and the next one is consumed from the front |
| Book.SubmitRests | order_book.py:69-71 | A positive remainder joins its limit price's queue behind every order not younger than it; other levels are unchanged; without a remainder the own side is untouched |
| Engine.Walk | order_book.cpp:68-89 | The imperative matching loop returns exactly the opposite side, the trade list appended to the prior one, and the remainder that `Match` describes |
| Engine.OrderBook.constructor | order_book.py:34-36 | A new engine holds no books and satisfies the invariant |
| Engine.OrderBook.AddOrder | order_book.cpp:133-141 | Only the order's instrument changes; its book becomes the submission's outcome; the returned trades are the book's trades; the returned remainder is the outcome's; the invariant is kept |
| Engine.OrderBook.ClearTrades | order_book.cpp:134 | The instrument's book (created empty on first use) has its trade list emptied; its sides and every other instrument are unchanged; the invariant is kept |
| Engine.OrderBook.AddBuyOrder | order_book.py:48-71 | The instrument's book becomes the buy submission's outcome, and no other instrument changes |
| Engine.OrderBook.AddSellOrder | order_book.py:73-96 | The instrument's book becomes the sell submission's outcome, and no other instrument changes |
| Engine.OrderBook.MatchAndRest | api/app.py:54-76 | Walking and resting give the book `SideSubmit` describes, with the invariant kept |
| Engine.OrderBook.OrderBookState | api/app.py:102-110 | The snapshot lists every level's price and its orders' (id, quantity, timestamp) in queue order, and the last call's trades. In a valid engine bids are strictly descending and asks strictly ascending, with non-empty, time-ordered, positive levels. An unknown instrument gives an empty snapshot |
| Engine.OrderBook.OrderBookCounts | order_book.py:98-105 | The snapshot gives each level's price and order count, and the last call's trades. In a valid engine bids are strictly descending and asks strictly ascending, with every count positive |
| Engine.StatesOf | api/app.py:105-108 | The listing has one entry per level, in the side's order, with the level's price and its orders' (id, quantity, timestamp) in queue order |
| Engine.CountsOf | order_book.py:102-103 | The counts have one entry per level, in the side's order, with the level's price and its number of orders |
| Engine.ListedValid | api/app.py:105-108 | Listing a valid side gives levels in price order, none empty, with positive quantities in time order |
| Engine.CountsAgree | order_book.py:102-103 | Each level's count is the number of entries the app's snapshot lists for it |
| Engine.DefaultInsertUnseen | order_book.py:102 | The empty book that looking up an unknown instrument inserts cannot be seen through any lookup |
| Scenarios.SpyFillAndRest | order_book.py:55-71 | A buy of 15 at 100.00 against a resting sell of 10 at 100.00 trades 10 at 100.00, empties the asks and rests 5 |
| Scenarios.MsftRestsInEmptyBook | order_book.py:94-96 | A sell into an empty book makes no trade and rests alone at its price |
| Scenarios.PartialFillPersists | api/app.py:60-76 | A buy of 50 at 101.00 against a sell of 30 at 100.00 trades 30 at 100.00 and rests 20 at 101.00 |
| Scenarios.EarlierOrderFilledFirst | order_book.cpp:77-88 | Of two sells at one price, the earlier-timestamped one is filled first and the other stays |
| Scenarios.NoCrossRests | order_book.py:80-83 | A sell above the best bid rests without trading, and the previous call's trades are cleared |
| Scenarios.UnknownSideDropped | order_book.cpp:135-139 | An order with side "HOLD" changes nothing and makes no trade |

## Left out

- Floating-point prices and timestamps are modelled as integer ticks. The
  core only compares and copies them, so NaN, rounding and float keys are not
  modelled.
- The wall clock (`time.time()`, `system_clock::now()`) is the `clock`
  parameter of `NewOrder`.
- The instrument and side strings are upper-cased by `Upper`, which is ASCII
  only. Non-ASCII case mapping is not modelled.
- The Python stores the caller's own `Order` object in the book and lowers
  its `quantity` in place. The model stores a copy, as the C++ `push_back`
  does, and returns the remaining quantity. Any later change the caller makes
  to an order object it has already submitted is not modelled. The most
  visible effect is resubmitting an object that already rests. The Python
  book then holds the same object twice. A later opposite order fills it
  once, meets it again with quantity 0, and appends a trade of quantity 0
  (order_book.py:85-87). For example, take a buy of 10 at 100 submitted twice
  and then a sell of 15 at 100. The Python gives trades of 10 and 0 with 5
  remaining. The model and the C++ give trades of 10 and 5 with nothing
  remaining. For the Python, `TradeFacts`' positive trade quantity therefore
  assumes that no order object is submitted twice.
- The Python `add_order` returns the book's own trade list. The model returns
  the list's value, so a caller changing the returned list is not modelled.
- `std::sort` is not stable. For equal timestamps the C++ may order a level
  differently from `SortByTime`. `Levels.RestLevelAt`, `Levels.SortAfterAppend`
  and `Scenarios.EarlierOrderFilledFirst` state the stable (Python) placement.
  For the C++ only the sorted-permutation facts of `SortByTime` apply.
- C++ `int` quantities are 32-bit, and the model's are unbounded. No overflow
  can occur in the core: every subtraction takes away at most the minimum of
  the two quantities.
- The snapshots look the instrument up in a default dictionary, which inserts
  an empty book for an unknown instrument. The model's snapshots are functions
  and insert nothing. `Engine.DefaultInsertUnseen` shows the insertion cannot
  be observed.
- The app's snapshot converts prices to strings as dictionary keys. That
  conversion is JSON formatting and is not modelled: the model keeps prices
  as integers, in order.
- The following are not part of this model:
  - the web layer (Flask routes, CORS, request parsing, templates);
  - the module-level engine and its random seeding;
  - the random order generators, price tables and `main` drivers;
  - printing, `__repr__`, `to_dict` and `print_order_book_state`.
- Concurrency is not modelled, because the source is single-threaded.
