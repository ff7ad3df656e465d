/**
 * The single-pair limit order book (src/match_engine/orderbook.rs).
 *
 * Orders rest in price levels (`Limit`s), one FIFO queue per exact price,
 * and the book keeps one map of levels per side. Sizes are exact naturals;
 * prices are taken as already-built exact keys.
 */
module Orderbook {

  /** An unsigned 64-bit machine integer, the type of a price's three fields. */
  type U64 = x: int | 0 <= x < 0x1_0000_0000_0000_0000

  /** The side of an order (the source's `BidOrAsk`). */
  datatype Side = Bid | Ask

  /**
   * An exact price key. Equality is structural on all three fields, as the
   * derived equality and hash of the source's `Price` are; the conversion
   * from a floating-point price is not part of this model.
   */
  datatype Price = Price(integral: U64, fractional: U64, scaler: U64)

  /**
   * A resting or incoming order: its remaining size and its side.
   * `Order::new` is the datatype constructor.
   */
  datatype Order = Order(size: nat, side: Side) {
    /** `is_filled`: nothing of the order remains to be matched. */
    predicate IsFilled() {
      size == 0
    }
  }

  /** The other side of the book. */
  function Opposite(side: Side): (s: Side)
    ensures s != side
  {
    match side
    case Bid => Ask
    case Ask => Bid
  }

  // ---------------------------------------------------------------------
  // Specification of a price level's queue
  // ---------------------------------------------------------------------

  /** The total remaining size of a queue of orders. */
  function Volume(queue: seq<Order>): nat
  {
    if queue == [] then 0 else queue[0].size + Volume(queue[1..])
  }

  lemma {:induction false} VolumeConcat(a: seq<Order>, b: seq<Order>)
    ensures Volume(a + b) == Volume(a) + Volume(b)
  {
    if a == [] {
      assert a + b == b;
    } else {
      assert (a + b)[1..] == a[1..] + b;
      VolumeConcat(a[1..], b);
    }
  }

  /** The volume of a non-empty prefix, split at its head order. */
  lemma VolumePrefix(queue: seq<Order>, k: nat)
    requires 1 <= k <= |queue|
    ensures Volume(queue[..k]) == queue[0].size + Volume(queue[1..][..k - 1])
  {
    assert queue[..k][1..] == queue[1..][..k - 1];
  }

  /** Appending an order to a level adds exactly its size to the level's volume. */
  lemma AppendVolume(queue: seq<Order>, order: Order)
    ensures Volume(queue + [order]) == Volume(queue) + order.size
  {
    VolumeConcat(queue, [order]);
    assert [order][1..] == [];
  }

  /** What a fill leaves behind: the resting queue and the incoming order's unmatched size. */
  datatype FillOutcome = FillOutcome(resting: seq<Order>, leftover: nat)

  /**
   * Reference definition of `Limit::fill_order`: the incoming size is matched
   * against the resting orders from the head of the queue; a resting order is
   * either consumed entirely or absorbs all that is left, and matching stops
   * once nothing is left.
   */
  function Fill(queue: seq<Order>, size: nat): (r: FillOutcome)
    ensures |r.resting| == |queue|
  {
    if queue == [] || size == 0 then FillOutcome(queue, size)
    else if size >= queue[0].size then
      var rest := Fill(queue[1..], size - queue[0].size);
      FillOutcome([queue[0].(size := 0)] + rest.resting, rest.leftover)
    else
      FillOutcome([queue[0].(size := queue[0].size - size)] + queue[1..], 0)
  }

  /**
   * A fill neither creates nor destroys quantity: the volume the level loses is
   * exactly the size the incoming order loses (the matched quantity).
   */
  lemma {:induction false} FillConserves(queue: seq<Order>, size: nat)
    ensures Volume(Fill(queue, size).resting) + size
            == Volume(queue) + Fill(queue, size).leftover
  {
    if queue == [] || size == 0 {
    } else if size >= queue[0].size {
      var rest := Fill(queue[1..], size - queue[0].size);
      FillConserves(queue[1..], size - queue[0].size);
      assert ([queue[0].(size := 0)] + rest.resting)[1..] == rest.resting;
    } else {
      assert ([queue[0].(size := queue[0].size - size)] + queue[1..])[1..] == queue[1..];
    }
  }

  /**
   * A fill keeps every resting order in its place and on its side, and never
   * increases a resting size or the incoming size.
   */
  lemma {:induction false} FillNeverGrows(queue: seq<Order>, size: nat)
    ensures Fill(queue, size).leftover <= size
    ensures forall i | 0 <= i < |queue| ::
              Fill(queue, size).resting[i].side == queue[i].side &&
              Fill(queue, size).resting[i].size <= queue[i].size
  {
    if queue == [] || size == 0 {
    } else if size >= queue[0].size {
      FillNeverGrows(queue[1..], size - queue[0].size);
    }
  }

  /**
   * Price-time priority. With P(i) the volume of the orders ahead of position
   * i, a fill of `size` consumes the order at i entirely when P(i) plus its own
   * size is at most `size`, leaves it untouched when P(i) already covers
   * `size`, and otherwise takes exactly the part of it that P(i) does not cover.
   */
  lemma {:induction false} FillFifo(queue: seq<Order>, size: nat, i: nat)
    requires i < |queue|
    ensures Volume(queue[..i + 1]) <= size ==>
              Fill(queue, size).resting[i] == queue[i].(size := 0)
    ensures size <= Volume(queue[..i]) ==>
              Fill(queue, size).resting[i] == queue[i]
    ensures Volume(queue[..i]) < size < Volume(queue[..i + 1]) ==>
              Fill(queue, size).resting[i] == queue[i].(size := Volume(queue[..i + 1]) - size)
  {
    assert queue[..i + 1] == queue[..i] + [queue[i]];
    AppendVolume(queue[..i], queue[i]);
    if size == 0 {
    } else if size >= queue[0].size {
      if i > 0 {
        VolumePrefix(queue, i);
        VolumePrefix(queue, i + 1);
        FillFifo(queue[1..], size - queue[0].size, i - 1);
      }
    } else if i > 0 {
      VolumePrefix(queue, i);
    }
  }

  /**
   * The incoming order ends filled exactly when the level holds at least its
   * size; otherwise what is left of it is its size minus the level's volume.
   */
  lemma {:induction false} FillLeftover(queue: seq<Order>, size: nat)
    ensures Fill(queue, size).leftover == if size <= Volume(queue) then 0 else size - Volume(queue)
    ensures Fill(queue, size).leftover == 0 <==> size <= Volume(queue)
  {
    if queue == [] || size == 0 {
    } else if size >= queue[0].size {
      FillLeftover(queue[1..], size - queue[0].size);
    }
  }

  /** When the incoming size covers the whole level, every resting order ends at 0. */
  lemma FillExhausts(queue: seq<Order>, size: nat)
    requires Volume(queue) <= size
    ensures forall i | 0 <= i < |queue| :: Fill(queue, size).resting[i] == queue[i].(size := 0)
  {
    forall i | 0 <= i < |queue|
      ensures Fill(queue, size).resting[i] == queue[i].(size := 0)
    {
      assert queue == queue[..i + 1] + queue[i + 1..];
      VolumeConcat(queue[..i + 1], queue[i + 1..]);
      FillFifo(queue, size, i);
    }
  }

  /**
   * One turn of the fill loop at position i: the order there is consumed or
   * absorbs the rest, and what remains to be done is the fill of the tail.
   */
  lemma FillStep(before: seq<Order>, i: nat, size: nat, after: seq<Order>, size': nat)
    requires i < |before|
    requires size >= before[i].size ==>
               after == before[i := before[i].(size := 0)] && size' == size - before[i].size
    requires size < before[i].size ==>
               after == before[i := before[i].(size := before[i].size - size)] && size' == 0
    ensures after[i + 1..] == before[i + 1..]
    ensures before[..i] + Fill(before[i..], size).resting == after[..i + 1] + Fill(after[i + 1..], size').resting
    ensures Fill(before[i..], size).leftover == Fill(after[i + 1..], size').leftover
  {
    var tail := before[i..];
    assert tail == [before[i]] + before[i + 1..];
    assert after[..i + 1] == before[..i] + [after[i]];
    assert after[i + 1..] == before[i + 1..];
    if size == 0 {
      assert after[i] == before[i];
    } else if size >= before[i].size {
      assert Fill(tail, size).resting == [after[i]] + Fill(after[i + 1..], size').resting;
    } else {
      assert Fill(tail, size).resting == [after[i]] + after[i + 1..];
    }
  }

  // ---------------------------------------------------------------------
  // Limit: one price level
  // ---------------------------------------------------------------------

  /**
   * All orders resting at one exact price, oldest first. The book owns its
   * levels by value, so a level is a value here and an operation on it
   * returns the updated level. `Limit::new(price)` is `Limit(price, [])`.
   */
  datatype Limit = Limit(price: Price, orders: seq<Order>) {

    /** `add_order`: the order joins the tail of the queue. */
    function AddOrder(order: Order): (r: Limit)
      ensures r.price == price
      ensures |r.orders| == |orders| + 1 && r.orders[|orders|] == order
      ensures forall i | 0 <= i < |orders| :: r.orders[i] == orders[i]
      ensures Volume(r.orders) == Volume(orders) + order.size
    {
      AppendVolume(orders, order);
      this.(orders := orders + [order])
    }

    /**
     * `fill_order`: matches `order` against the queue head to tail, stopping
     * once it is filled; returns the level afterwards and the incoming order
     * with its unmatched size.
     */
    method FillOrder(order: Order) returns (filled: Limit, rest: Order)
      ensures filled == this.(orders := Fill(orders, order.size).resting)
      ensures rest == order.(size := Fill(orders, order.size).leftover)
      ensures Volume(orders) - Volume(filled.orders) == order.size - rest.size
      ensures rest.IsFilled() <==> order.size <= Volume(orders)
    {
      var queue := orders;
      rest := order;
      for i := 0 to |queue|
        invariant |queue| == |orders|
        invariant queue[i..] == orders[i..]
        invariant queue[..i] + Fill(queue[i..], rest.size).resting == Fill(orders, order.size).resting
        invariant Fill(queue[i..], rest.size).leftover == Fill(orders, order.size).leftover
        invariant rest == order.(size := rest.size)
      {
        ghost var before, wanted := queue, rest.size;
        var resting := queue[i];
        if rest.size >= resting.size {
          rest := rest.(size := rest.size - resting.size);
          queue := queue[i := resting.(size := 0)];
        } else {
          queue := queue[i := resting.(size := resting.size - rest.size)];
          rest := rest.(size := 0);
        }
        FillStep(before, i, wanted, queue, rest.size);
        if rest.IsFilled() {
          assert queue == queue[..i + 1] + queue[i + 1..];
          break;
        }
      }
      filled := this.(orders := queue);
      FillConserves(orders, order.size);
      FillLeftover(orders, order.size);
    }

    /** `total_volume`: the sum of the resting sizes; the level is left as it is. */
    method TotalVolume() returns (size: nat)
      ensures size == Volume(orders)
    {
      size := 0;
      for i := 0 to |orders|
        invariant size == Volume(orders[..i])
      {
        assert orders[..i + 1] == orders[..i] + [orders[i]];
        AppendVolume(orders[..i], orders[i]);
        size := size + orders[i].size;
      }
      assert orders[..|orders|] == orders;
    }
  }

  // ---------------------------------------------------------------------
  // The book, as a value
  // ---------------------------------------------------------------------

  /** What a book holds: for each side, the level at each price. */
  datatype BookView = BookView(asks: map<Price, Limit>, bids: map<Price, Limit>) {
    /** The levels of one side. */
    function Levels(side: Side): map<Price, Limit> {
      match side
      case Ask => asks
      case Bid => bids
    }

    /** The queue at `price` on `side`; empty when there is no level there. */
    function QueueAt(side: Side, price: Price): seq<Order> {
      if price in Levels(side) then Levels(side)[price].orders else []
    }

    /** Every level is filed under its own price, on both sides. */
    ghost predicate Filed() {
      && (forall p | p in asks :: asks[p].price == p)
      && (forall p | p in bids :: bids[p].price == p)
    }
  }

  /** The book `OrderBook::new` creates: no level on either side. */
  const EmptyBook := BookView(map[], map[])

  /**
   * Reference definition of `add_limit_order`: the order's own side is
   * chosen; the order joins the tail of the level at `price`, which is
   * created when absent. Nothing is crossed against the other side.
   */
  function AddLimitSpec(book: BookView, price: Price, order: Order): (r: BookView)
    ensures r.Levels(order.side).Keys == book.Levels(order.side).Keys + {price}
    ensures r.QueueAt(order.side, price) == book.QueueAt(order.side, price) + [order]
    ensures forall p | p in book.Levels(order.side) && p != price ::
              r.Levels(order.side)[p] == book.Levels(order.side)[p]
    ensures r.Levels(Opposite(order.side)) == book.Levels(Opposite(order.side))
    ensures book.Filed() ==> r.Filed()
  {
    var levels := book.Levels(order.side);
    var level := if price in levels then levels[price] else Limit(price, []);
    var updated := levels[price := level.AddOrder(order)];
    match order.side
    case Ask => book.(asks := updated)
    case Bid => book.(bids := updated)
  }

  /**
   * Placing a limit order adds exactly its size to the volume resting at its
   * price and side, and leaves the queue at every other price and side as it was.
   */
  lemma AddLimitVolume(book: BookView, price: Price, order: Order)
    ensures Volume(AddLimitSpec(book, price, order).QueueAt(order.side, price))
            == Volume(book.QueueAt(order.side, price)) + order.size
    ensures forall side, p | side != order.side || p != price ::
              AddLimitSpec(book, price, order).QueueAt(side, p) == book.QueueAt(side, p)
  {
    AppendVolume(book.QueueAt(order.side, price), order);
  }

  /** Why a market order is turned away. */
  datatype MarketError = NoLevelAtPrice | InsufficientVolume

  /** The outcome of `fill_market_order`. */
  datatype MarketResult = Ok | Err(error: MarketError)

  /**
   * Reference definition of `fill_market_order`: the order is checked against
   * the level at `price` on the side opposite its own (a sell against the
   * bids, a buy against the asks). It is refused when there is no level there
   * or the level holds less than its size, and accepted otherwise.
   */
  function MarketCheck(book: BookView, price: Price, order: Order): (r: MarketResult)
    ensures r == Err(NoLevelAtPrice) <==> price !in book.Levels(Opposite(order.side))
    ensures r == Err(InsufficientVolume) <==>
              price in book.Levels(Opposite(order.side)) &&
              Volume(book.Levels(Opposite(order.side))[price].orders) < order.size
    ensures r == Ok <==>
              price in book.Levels(Opposite(order.side)) &&
              order.size <= Volume(book.Levels(Opposite(order.side))[price].orders)
  {
    var levels := book.Levels(Opposite(order.side));
    if price !in levels then Err(NoLevelAtPrice)
    else if Volume(levels[price].orders) < order.size then Err(InsufficientVolume)
    else Ok
  }

  /**
   * What the check is for: it accepts the order exactly when filling it
   * against that level's queue would leave nothing of it unmatched.
   */
  lemma MarketCheckMeansFillable(book: BookView, price: Price, order: Order)
    requires price in book.Levels(Opposite(order.side))
    ensures MarketCheck(book, price, order) == Ok <==>
              Fill(book.Levels(Opposite(order.side))[price].orders, order.size).leftover == 0
  {
    FillLeftover(book.Levels(Opposite(order.side))[price].orders, order.size);
  }

  /**
   * `fill_market_order` as written: both branches consult the asks, so a sell
   * order is checked against the resting sells.
   */
  function MarketCheckAsWritten(book: BookView, price: Price, order: Order): (r: MarketResult)
    ensures r == Err(NoLevelAtPrice) <==> price !in book.asks
    ensures r == Ok <==> price in book.asks && order.size <= Volume(book.asks[price].orders)
  {
    if price !in book.asks then Err(NoLevelAtPrice)
    else if Volume(book.asks[price].orders) < order.size then Err(InsufficientVolume)
    else Ok
  }

  /** The two agree on buy orders: a buy is meant to be matched against the asks. */
  lemma AsWrittenAgreesOnBids(book: BookView, price: Price, order: Order)
    requires order.side == Bid
    ensures MarketCheckAsWritten(book, price, order) == MarketCheck(book, price, order)
  {
  }

  /**
   * A sell of 96 at a price where a buy of 100 rests and no sell rests: the
   * code as written answers that there is no level at that price, although
   * the resting buy covers the whole sell.
   */
  lemma AsWrittenMissesRestingBid()
    ensures var p := Price(10000, 0, 100000);
            var book := BookView(map[], map[p := Limit(p, [Order(100, Bid)])]);
            var sell := Order(96, Ask);
            MarketCheckAsWritten(book, p, sell) == Err(NoLevelAtPrice) &&
            MarketCheck(book, p, sell) == Ok
  {
    var p := Price(10000, 0, 100000);
    assert Volume([Order(100, Bid)]) == 100;
  }

  // ---------------------------------------------------------------------
  // OrderBook: the two sides of one market
  // ---------------------------------------------------------------------

  /** Two maps from exact prices to levels, one per side. */
  class OrderBook {
    var asks: map<Price, Limit>
    var bids: map<Price, Limit>

    /** Both sides, as a value. */
    function View(): BookView
      reads this
    {
      BookView(asks, bids)
    }

    /** Every level is filed under its own price. */
    ghost predicate Valid()
      reads this
    {
      View().Filed()
    }

    /** `OrderBook::new`: no levels on either side. */
    constructor ()
      ensures Valid() && View() == EmptyBook
    {
      asks, bids := map[], map[];
    }

    /**
     * `add_limit_order`: files the order under its own side, at the tail of
     * the level at `price`, creating that level when it is missing.
     */
    method AddLimitOrder(price: Price, order: Order)
      requires Valid()
      modifies this
      ensures Valid()
      ensures View() == AddLimitSpec(old(View()), price, order)
    {
      match order.side {
        case Ask =>
          if price in asks {
            asks := asks[price := asks[price].AddOrder(order)];
          } else {
            var limit := Limit(price, []);
            asks := asks[price := limit.AddOrder(order)];
          }
        case Bid =>
          if price in bids {
            bids := bids[price := bids[price].AddOrder(order)];
          } else {
            var limit := Limit(price, []);
            bids := bids[price := limit.AddOrder(order)];
          }
      }
    }

    /**
     * `fill_market_order`: reports whether the level at `price` on the side
     * opposite the order could take the whole order. Nothing is filled and
     * the book is not changed (the method modifies nothing). The source
     * consults the asks for both sides; this model consults the opposite
     * side (see `MarketCheckAsWritten`).
     */
    method FillMarketOrder(price: Price, order: Order) returns (r: MarketResult)
      ensures r == MarketCheck(View(), price, order)
    {
      var levels := if order.side == Ask then bids else asks;
      if price in levels {
        var volume := levels[price].TotalVolume();
        if volume < order.size {
          r := Err(InsufficientVolume);
        } else {
          r := Ok;
        }
      } else {
        r := Err(NoLevelAtPrice);
      }
    }
  }

  // ---------------------------------------------------------------------
  // Clients: the scenarios the source's unit tests exercise
  // ---------------------------------------------------------------------

  /** A buy of 100 rests; a sell of 96 is filled and leaves 4 resting. */
  method LimitOrderSingleFill() {
    var limit := Limit(Price(10000, 0, 100000), []);
    limit := limit.AddOrder(Order(100, Bid));
    var sell;
    limit, sell := limit.FillOrder(Order(96, Ask));
    assert sell.IsFilled();
    assert limit.orders[0].size == 4;
  }

  /** Buys of 100 and 155 rest; sells of 50 then 56 are filled and leave 149 at the second. */
  method LimitOrderMultipleFill() {
    var limit := Limit(Price(10000, 0, 100000), []);
    limit := limit.AddOrder(Order(100, Bid)).AddOrder(Order(155, Bid));
    var sellA, sellB;
    limit, sellA := limit.FillOrder(Order(50, Ask));
    limit, sellB := limit.FillOrder(Order(56, Ask));
    assert sellA.IsFilled() && sellB.IsFilled();
    assert limit.orders[1].size == 149;
  }

  /** Buys of 100 and 155 rest at one price: the level's volume is 255. */
  method TotalLimit() {
    var limit := Limit(Price(10000, 0, 100000), []);
    limit := limit.AddOrder(Order(100, Bid)).AddOrder(Order(155, Bid));
    var total := limit.TotalVolume();
    assert total == 255;
  }
}
