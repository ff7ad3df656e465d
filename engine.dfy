/**
 * The per-pair routing layer (src/match_engine/engine.rs): one independent
 * order book per trading pair.
 */
module Engine {
  import opened Orderbook

  /**
   * A market's identity: its base and quote asset symbols. Equality is
   * structural, so two pairs with the same symbols select the same book.
   * `TradingPair::new` is the datatype constructor.
   */
  datatype TradingPair = TradingPair(base: string, quote: string) {
    /** `to_string`: the base symbol, a dash, then the quote symbol. */
    function ToString(): (s: string)
      ensures |s| == |base| + 1 + |quote|
      ensures s[..|base|] == base && s[|base|] == '-' && s[|base| + 1..] == quote
    {
      base + "-" + quote
    }
  }

  /**
   * The text of a pair names the pair, as long as the base symbol holds no
   * dash: the first dash then marks where the base symbol ends.
   */
  lemma ToStringInjective(a: TradingPair, b: TradingPair)
    requires '-' !in a.base && '-' !in b.base
    requires a.ToString() == b.ToString()
    ensures a == b
  {
  }

  /** Without that condition the text is ambiguous: two pairs read "A-B-C". */
  lemma ToStringAmbiguous()
    ensures TradingPair("A-B", "C") != TradingPair("A", "B-C")
    ensures TradingPair("A-B", "C").ToString() == TradingPair("A", "B-C").ToString()
  {
  }

  /** The books of all open markets, as values. */
  type Markets = map<TradingPair, BookView>

  /**
   * Reference definition of `add_new_market`: `pair` is mapped to an empty
   * book, replacing any book it had; every other market keeps its book.
   */
  function AddMarketSpec(markets: Markets, pair: TradingPair): (r: Markets)
    ensures r.Keys == markets.Keys + {pair}
    ensures r[pair] == EmptyBook
    ensures forall q | q in markets && q != pair :: r[q] == markets[q]
  {
    markets[pair := EmptyBook]
  }

  /**
   * Reference definition of `place_limit_order`: the order goes to the book
   * of `pair` as `add_limit_order` files it; an unknown pair changes nothing,
   * and no market is opened on the way.
   */
  function PlaceLimitSpec(markets: Markets, pair: TradingPair, price: Price, order: Order): (r: Markets)
    ensures pair !in markets ==> r == markets
    ensures r.Keys == markets.Keys
    ensures pair in markets ==> r[pair] == AddLimitSpec(markets[pair], price, order)
    ensures forall q | q in markets && q != pair :: r[q] == markets[q]
  {
    if pair in markets then markets[pair := AddLimitSpec(markets[pair], price, order)] else markets
  }

  /** One call of `place_limit_order`. */
  datatype Placement = Placement(pair: TradingPair, price: Price, order: Order)

  /** The markets after a run of placements, in order. */
  function PlaceAll(markets: Markets, placements: seq<Placement>): Markets
    decreases |placements|
  {
    if placements == [] then markets
    else
      var last := placements[|placements| - 1];
      PlaceLimitSpec(PlaceAll(markets, placements[..|placements| - 1]), last.pair, last.price, last.order)
  }

  /** Placements never open a market: the set of open markets stays as it was. */
  lemma {:induction false} PlaceAllKeepsMarkets(markets: Markets, placements: seq<Placement>)
    ensures PlaceAll(markets, placements).Keys == markets.Keys
    decreases |placements|
  {
    if placements != [] {
      PlaceAllKeepsMarkets(markets, placements[..|placements| - 1]);
    }
  }

  /**
   * A fresh engine has no markets, so any run of placements before the first
   * `add_new_market` leaves it with none.
   */
  lemma {:induction false} PlacementsOnNewEngine(placements: seq<Placement>)
    ensures PlaceAll(map[], placements) == map[]
    decreases |placements|
  {
    if placements != [] {
      PlacementsOnNewEngine(placements[..|placements| - 1]);
    }
  }

  /** Markets are independent: placements on other pairs leave a book as it was. */
  lemma {:induction false} PlaceAllOtherMarkets(markets: Markets, placements: seq<Placement>, pair: TradingPair)
    requires pair in markets
    requires forall i | 0 <= i < |placements| :: placements[i].pair != pair
    ensures pair in PlaceAll(markets, placements)
    ensures PlaceAll(markets, placements)[pair] == markets[pair]
    decreases |placements|
  {
    if placements != [] {
      PlaceAllKeepsMarkets(markets, placements[..|placements| - 1]);
      PlaceAllOtherMarkets(markets, placements[..|placements| - 1], pair);
    }
  }

  /** A map from trading pairs to the order books the engine owns. */
  class MatchingEngine {
    var orderbooks: map<TradingPair, OrderBook>
    /** The books of the open markets, as values. */
    ghost var Contents: Markets

    /**
     * Each open market has a book of its own (no two pairs share one), each
     * book is valid, and `Contents` records what each book holds.
     */
    ghost predicate Valid()
      reads this, orderbooks.Values
    {
      && orderbooks.Keys == Contents.Keys
      && (forall pr | pr in orderbooks :: orderbooks[pr].Valid() && orderbooks[pr].View() == Contents[pr])
      && (forall p, q | p in orderbooks && q in orderbooks && p != q :: orderbooks[p] != orderbooks[q])
    }

    /** `MatchingEngine::new`: no market is open. */
    constructor ()
      ensures Valid() && Contents == map[]
    {
      orderbooks := map[];
      Contents := map[];
    }

    /** `add_new_market`: opens `pair` with an empty book, replacing any book it had. */
    method AddNewMarket(pair: TradingPair)
      requires Valid()
      modifies this
      ensures Valid()
      ensures Contents == AddMarketSpec(old(Contents), pair)
      ensures fresh(orderbooks[pair])
      ensures forall q | q in old(orderbooks) && q != pair :: orderbooks[q] == old(orderbooks)[q]
    {
      var book := new OrderBook();
      assert forall q | q in orderbooks :: orderbooks[q] != book;
      Contents := Contents[pair := EmptyBook];
      orderbooks := orderbooks[pair := book];
    }

    /**
     * `place_limit_order`: hands the order to the book of `pair`; when `pair`
     * has no book nothing changes (the source only logs a message).
     */
    method PlaceLimitOrder(pair: TradingPair, price: Price, order: Order)
      requires Valid()
      modifies this, orderbooks.Values
      ensures Valid()
      ensures Contents == PlaceLimitSpec(old(Contents), pair, price, order)
      ensures orderbooks == old(orderbooks)
      ensures pair !in orderbooks ==> unchanged(this) && unchanged(orderbooks.Values)
    {
      if pair in orderbooks {
        var book := orderbooks[pair];
        book.AddLimitOrder(price, order);
        Contents := Contents[pair := book.View()];
      }
    }
  }

  /** An engine routes orders only to markets that have been opened. */
  method OpenThenPlace() {
    var engine := new MatchingEngine();
    var pair := TradingPair("BTC", "USD");
    var price := Price(10000, 0, 100000);
    engine.PlaceLimitOrder(pair, price, Order(100, Bid));
    assert engine.Contents == map[];
    engine.AddNewMarket(pair);
    engine.PlaceLimitOrder(pair, price, Order(100, Bid));
    assert engine.Contents[pair].bids[price].orders == [Order(100, Bid)];
  }
}
