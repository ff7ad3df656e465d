# Limit order book and matching engine, in Dafny

This project models the in-memory limit order book of `rust-match-engine`
and the layer that routes orders to one book per trading pair.

- **Price levels.** A `Limit` is the FIFO queue of orders resting at one
  exact `Price`. `add_order` appends an order. `fill_order` matches an
  incoming order against the queue from head to tail and stops once the
  order is filled. `total_volume` sums the resting sizes.
- **The book.** An `OrderBook` holds two maps from `Price` to `Limit`, one
  for asks and one for bids. `add_limit_order` files an order under its own
  side, creating the level when the price is new. `fill_market_order` only
  checks whether a level could take a whole order.
- **The engine.** A `MatchingEngine` maps each `TradingPair` to its own
  book. `add_new_market` opens a market. `place_limit_order` hands an order
  to the pair's book and does nothing for an unknown pair.

Two modules, one per source file:

- `orderbook.dfy` (module `Orderbook`) models `src/match_engine/orderbook.rs`.
- `engine.dfy` (module `Engine`) models `src/match_engine/engine.rs`.

How the model is built:

- `Fill` is a recursive reference definition of `fill_order`.
- `Limit.FillOrder` keeps the source's loop, including its early exit, and is
  proved equal to `Fill`.
- The behaviour of a fill is proved once, about `Fill`: the matched
  quantity is the same on both sides, price-time priority holds position by
  position, and the incoming order is filled exactly when the level holds
  enough.
- `OrderBook` and `MatchingEngine` are classes whose map fields their
  methods reassign. Each method is proved against a function on values:
  `AddLimitSpec`, `MarketCheck`, `AddMarketSpec` or `PlaceLimitSpec`.
- The engine keeps a ghost `Contents` (the books as values). `Valid()` ties
  it to the real books and says that no two pairs share a book.

Where the model departs from a plain reading of the code:

- **Conservation.** A fill does not keep "resting volume plus incoming size"
  constant: a match removes the same quantity from both. For example, 100
  resting against 96 incoming leaves 4 and 0. The model proves the true
  statement: the volume the level loses equals the size the incoming order
  loses (`FillConserves`).
- **`fill_market_order` does not compile as written.** An `if` without
  `else` yields an `Err`, and the function returns `Err(String)` against a
  declared `Result<(), f64>`. The model returns `Err(NoLevelAtPrice)`,
  `Err(InsufficientVolume)` or `Ok`, and never changes the book.
- **`fill_market_order` checks the side opposite the order's own.** The
  source consults `asks` on both branches. See "## Findings".
- **`place_limit_order` returns nothing.** On an unknown pair the code only
  logs a message. The model returns nothing and proves that the engine is
  unchanged.
- **`add_new_market` replaces the book.** The code inserts into the map, so
  reopening a pair discards its book. The model does the same
  (`AddMarketSpec`).
- **Zero-size orders stay in the queue.** Fully filled resting orders remain
  as zero-size entries, and levels are never removed, as in the code.

## Model

| member | source | states |
|---|---|---|
| `Orderbook.AppendVolume` | src/match_engine/orderbook.rs:56-58 | appending an order to a queue adds exactly its size to the queue's volume |
| `Orderbook.Limit.AddOrder` | src/match_engine/orderbook.rs:56-58 | the order lands at the tail; every earlier order keeps its position and size; the length grows by one; the price is kept; the volume grows by the order's size |
| `Orderbook.Fill` | src/match_engine/orderbook.rs:60-77 | a fill keeps the queue's length: no resting order is added or removed |
| `Orderbook.FillStep` | src/match_engine/orderbook.rs:62-75 | one loop turn at position i either consumes the resting order or makes it absorb the rest; what remains is exactly the fill of the tail with what is left |
| `Orderbook.Limit.FillOrder` | src/match_engine/orderbook.rs:60-77 | the loop, with its early exit, leaves the queue and the incoming order exactly as `Fill` says; the matched quantity is the same on both sides; the incoming order ends filled iff its size is at most the level's volume |
| `Orderbook.FillConserves` | src/match_engine/orderbook.rs:60-77 | no quantity is created or destroyed: the volume the level loses equals the size the incoming order loses |
| `Orderbook.FillNeverGrows` | src/match_engine/orderbook.rs:62-71 | every resting order keeps its position and side; no resting size and not the incoming size ever grows (sizes are naturals, so none goes negative) |
| `Orderbook.FillFifo` | src/match_engine/orderbook.rs:61-76 | price-time priority, position by position: an order whose predecessors and itself fit in the incoming size ends at 0; one whose predecessors already cover it is untouched; the one in between keeps exactly the part not covered |
| `Orderbook.FillLeftover` | src/match_engine/orderbook.rs:73-75 | the incoming order ends filled iff its size is at most the level's volume, and otherwise keeps its size minus that volume |
| `Orderbook.FillExhausts` | src/match_engine/orderbook.rs:61-76 | when the incoming size covers the whole level, every resting order ends at 0 |
| `Orderbook.Limit.TotalVolume` | src/match_engine/orderbook.rs:79-85 | the accumulator loop returns the sum of the resting sizes, and the level is not changed |
| `Orderbook.AddLimitSpec` | src/match_engine/orderbook.rs:141-172 | the order's own side gains the price as a level whose queue is the old queue (or none) plus the order at the tail; other prices on that side and the whole opposite side are unchanged; levels stay filed under their own price |
| `Orderbook.AddLimitVolume` | src/match_engine/orderbook.rs:145-168 | placing an order adds exactly its size to the volume at its price and side, whether the level existed or was created, and changes no other queue |
| `Orderbook.OrderBook.constructor` | src/match_engine/orderbook.rs:102-107 | a new book has no level on either side |
| `Orderbook.OrderBook.AddLimitOrder` | src/match_engine/orderbook.rs:141-172 | the book's maps after the call are exactly `AddLimitSpec` of the maps before, and every level stays filed under its price |
| `Orderbook.MarketCheck` | src/match_engine/orderbook.rs:109-139 | the check answers `Err(NoLevelAtPrice)` iff the opposite side has no level at the price, `Err(InsufficientVolume)` iff that level holds less than the order's size, and `Ok` iff it holds at least that much |
| `Orderbook.MarketCheckMeansFillable` | src/match_engine/orderbook.rs:116-120 | the check accepts exactly when filling the order against that level's queue would leave nothing of it unmatched |
| `Orderbook.OrderBook.FillMarketOrder` | src/match_engine/orderbook.rs:109-139 | the method returns `MarketCheck` of the book; it modifies nothing, so the book is unchanged in every case |
| `Orderbook.MarketCheckAsWritten` | src/match_engine/orderbook.rs:111-137 | as written, both branches consult the asks: `Err(NoLevelAtPrice)` iff no ask level exists at the price, `Ok` iff one exists with enough volume |
| `Orderbook.AsWrittenAgreesOnBids` | src/match_engine/orderbook.rs:125-137 | for a buy order, the code as written and the corrected check give the same answer |
| `Orderbook.AsWrittenMissesRestingBid` | src/match_engine/orderbook.rs:112-123 | a sell of 96 where only a buy of 100 rests is refused by the code as written ("no level") but accepted by the corrected check |
| `Engine.TradingPair.ToString` | src/match_engine/engine.rs:21-23 | the text is the base symbol, one dash, then the quote symbol, at those exact positions |
| `Engine.ToStringInjective` | src/match_engine/engine.rs:21-23 | when neither base symbol holds a dash, two pairs with the same text are the same pair |
| `Engine.ToStringAmbiguous` | src/match_engine/engine.rs:21-23 | without that condition two different pairs can share a text ("A-B"/"C" and "A"/"B-C") |
| `Engine.AddMarketSpec` | src/match_engine/engine.rs:33-34 | the pair is open with an empty book, replacing any book it had; every other pair keeps its book |
| `Engine.PlaceLimitSpec` | src/match_engine/engine.rs:38-44 | an unknown pair leaves all markets unchanged; a known pair's book changes exactly as `add_limit_order` changes it; no market is opened or closed and every other book is unchanged |
| `Engine.PlaceAllKeepsMarkets` | src/match_engine/engine.rs:38-44 | no run of placements opens or closes a market |
| `Engine.PlacementsOnNewEngine` | src/match_engine/engine.rs:27-44 | a new engine has no market, so every run of placements before the first `add_new_market` leaves it with none |
| `Engine.PlaceAllOtherMarkets` | src/match_engine/engine.rs:38-44 | markets are independent: placements on other pairs leave a pair's book exactly as it was |
| `Engine.MatchingEngine.constructor` | src/match_engine/engine.rs:27-31 | a new engine has no open market |
| `Engine.MatchingEngine.AddNewMarket` | src/match_engine/engine.rs:33-36 | the engine's books become `AddMarketSpec` of the old ones; the pair gets a freshly allocated book; every other pair keeps the same book object |
| `Engine.MatchingEngine.PlaceLimitOrder` | src/match_engine/engine.rs:38-44 | the engine's books become `PlaceLimitSpec` of the old ones; the pair-to-book map is unchanged; for an unknown pair neither the engine nor any book changes |

Datatype constructors stand for the source's plain constructors: `Order(size, side)` for `Order::new`, `Limit(price, [])` for `Limit::new`, and `TradingPair(base, quote)` for `TradingPair::new`. `Order.IsFilled` is `is_filled`. `TradingPair` and `Price` are datatypes, so their equality is structural on all fields, as the derived `PartialEq`/`Hash` are, and a map keyed by them selects by value. The client methods `LimitOrderSingleFill`, `LimitOrderMultipleFill` and `TotalLimit` replay the scenarios of the unit tests at src/match_engine/orderbook.rs:179-233 against the contracts: 100 − 96 leaves 4; 100 and 155 less 50 and then 56 leave 149 at the second order; 100 + 155 = 255. `Engine.OpenThenPlace` shows that a placement before `add_new_market` is a no-op.

## Left out

- `Price::new` (src/match_engine/orderbook.rs:89-98), the floating-point decomposition `price as u64` and `(price % 1.0) * scaler`. Prices enter the model as already-built exact `Price` values whose three fields are 64-bit unsigned integers. Every operation therefore takes a `Price` where the source takes an `f64`.
- `f64` arithmetic on sizes: sizes are exact naturals. IEEE rounding and negative or non-finite sizes are not modelled.
- Console output: the `println!` calls in `add_new_market` and `place_limit_order` (src/match_engine/engine.rs:35, 42), and `Order::to_string` (src/match_engine/orderbook.rs:43-45).
- The `String` texts of the errors in `fill_market_order`. They are the `MarketError` variants here.
- `HashMap` hashing: the maps are Dafny `map`s with structural key equality.
- Limits in place: a `Limit` is a value owned by the book's map, as the Rust `HashMap<Price, Limit>` owns it. `get_mut` followed by `add_order` is modelled as replacing the map entry with the updated level. No aliasing of levels exists in the source either.
- The incoming order of `fill_order`: `&mut Order` is a value passed in with the updated order returned.
- src/main.rs is not part of this model. It is an earlier copy of `Order`, `Price` and `Limit` and a `main` that prints.
- Not in the source and so not modelled: cancellation, crossing on insertion, walking across price levels, compaction of zero-size orders, removal of empty levels, and concurrency.

## Findings

| source | as written | input that shows it | evidently intended | confidence | as-written member | corrected member |
|---|---|---|---|---|---|---|
| src/match_engine/orderbook.rs:113 | the `Ask` branch of `fill_market_order` looks up `self.asks`, the order's own side (the `Bid` branch at line 126 does the same) | a book whose only level is a resting buy of 100 at price p; a market sell of 96 at p is answered "price out of ranges" | a sell is checked against the resting bids and a buy against the resting asks | medium; not executed (the function does not compile as written) | `Orderbook.MarketCheckAsWritten` | `Orderbook.MarketCheck` |
