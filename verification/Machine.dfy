/** The engine of all markets, and the replicated state machine that drives it: logs applied, snapshots taken and
    restored, on the program's own objects. */
module Machine {
  import opened Models
  import opened BookSpec
  import opened MatchLaws
  import opened LimitLaws
  import opened Runs
  import opened RBTrees
  import opened OrderBooks
  import opened Matchers
  import opened Engines
  import Resume

  /** Everything that belongs to one market. */
  ghost function Repr(me: MarketEngine): set<object>
    reads me, me.OrderBook
  {
    {me, me.OrderBook, me.OrderBook.Bids, me.OrderBook.Asks} + me.OrderBook.levels + me.OrderBook.members
  }

  /** The callback with which a snapshot collects the orders of a side. */
  function Gather(): (seq<Ord>, Sight) -> (seq<Ord>, bool) {
    (os: seq<Ord>, s: Sight) => (os + s.level.queue, true)
  }

  lemma {:induction false} GatherIsFlatten(ls: seq<Level>, before: seq<Ord>)
    ensures Visit(Gather(), before, Shown(ls)).0 == before + Flatten(ls)
  {
    if ls == [] {
      assert before + [] == before;
    } else {
      assert Shown(ls)[1..] == Shown(ls[1..]);
      GatherIsFlatten(ls[1..], before + ls[0].queue);
      assert before + ls[0].queue + Flatten(ls[1..]) == before + (ls[0].queue + Flatten(ls[1..]));
    }
  }

  /** The orders of one market, best price first and then first in, first out; the bids come first. */
  function OrdersOf(me: MarketEngine): (orders: seq<Ord>)
    requires me.Valid()
    reads *
    ensures orders == Resume.AllOrders(me.OrderBook.book)
  {
    MarketIsSeen(me);
    GatherIsFlatten(me.OrderBook.book.bids, []);
    GatherIsFlatten(me.OrderBook.book.asks, [] + Flatten(me.OrderBook.book.bids));
    var bids := me.OrderBook.Bids.Ascend(Gather(), []);
    me.OrderBook.Asks.Ascend(Gather(), bids)
  }

  lemma MarketIsSeen(me: MarketEngine)
    requires me.Valid()
    ensures me.OrderBook.Bids.Valid() && me.OrderBook.Asks.Valid()
    ensures Sights(me.OrderBook.Bids.Contents()) == Shown(me.OrderBook.book.bids)
    ensures Sights(me.OrderBook.Asks.Contents()) == Shown(me.OrderBook.book.asks)
    ensures var b := me.OrderBook.book; Resume.AllOrders(b) == [] + Flatten(b.bids) + Flatten(b.asks)
  {
    hide *;
    me.EngineValidIff();
    me.OrderBook.BookIsOk();
    me.OrderBook.BothTrees();
    me.OrderBook.SideIsSeen(Buy);
    me.OrderBook.SideIsSeen(Sell);
    Resume.OrdersAre(me.OrderBook.book);
  }

  // ------------------------------------------------------------------ a snapshot of a valid book can be restored

  /** No ID occurs at two positions of a side. */
  ghost predicate OnePlaceEach(ls: seq<Level>) {
    forall j, m, k, i :: IsSpot(ls, j, m) && IsSpot(ls, k, i) ==>
      SameId(ls, j, m, k, i) ==> j == k && m == i
  }

  predicate IsSpot(ls: seq<Level>, j: int, m: int) { 0 <= j < |ls| && 0 <= m < |ls[j].queue| }

  lemma PlaceInside(ls: seq<Level>, o: Ord) returns (k: nat, i: nat)
    requires o in Flatten(ls)
    ensures k < |ls| && i < |ls[k].queue| && ls[k].queue[i] == o
  {
    k := FlattenFrom(ls, o);
    i :| 0 <= i < |ls[k].queue| && ls[k].queue[i] == o;
  }

  lemma {:induction false} FlattenScattered(ls: seq<Level>)
    requires OnePlaceEach(ls)
    ensures Resume.Scattered(Flatten(ls))
  {
    if ls != [] {
      var q, rest := ls[0].queue, Flatten(ls[1..]);
      forall j, m, k, i | IsSpot(ls[1..], j, m) && IsSpot(ls[1..], k, i) && SameId(ls[1..], j, m, k, i)
        ensures j == k && m == i
      {
        assert IsSpot(ls, j + 1, m) && IsSpot(ls, k + 1, i) && SameId(ls, j + 1, m, k + 1, i);
      }
      FlattenScattered(ls[1..]);
      forall i, j | 0 <= i < |q| && 0 <= j < |rest|
        ensures q[i].id != rest[j].id
      {
        var k, m := PlaceInside(ls[1..], rest[j]);
        assert IsSpot(ls, k + 1, m) && IsSpot(ls, 0, i) && !SameId(ls, k + 1, m, 0, i);
      }
      forall i, j | 0 <= i < j < |q|
        ensures q[i].id != q[j].id
      {
        assert IsSpot(ls, 0, i) && IsSpot(ls, 0, j) && !SameId(ls, 0, i, 0, j);
      }
      ScatteredTogether(q, rest);
    }
  }

  lemma ScatteredTogether(a: seq<Ord>, b: seq<Ord>)
    requires Resume.Scattered(a) && Resume.Scattered(b)
    requires forall i, j :: 0 <= i < |a| && 0 <= j < |b| ==> a[i].id != b[j].id
    ensures Resume.Scattered(a + b)
  {
    var c := a + b;
    forall i, j | 0 <= i < j < |c|
      ensures c[i].id != c[j].id
    {
      if i < |a| <= j { assert a[i].id != b[j - |a|].id; }
    }
  }

  lemma SideIsScattered(ob: OrderBook, s: Side)
    requires ob.Linked()
    ensures Resume.Scattered(Flatten(ob.book.Of(s)))
  {
    hide *;
    var ls := ob.book.Of(s);
    forall j, m, k, i | IsSpot(ls, j, m) && IsSpot(ls, k, i) && SameId(ls, j, m, k, i)
      ensures j == k && m == i
    {
      SpotIs(ls, j, m, k, i);
      var id := ob.PositionOf(s, k, i);
      ob.IdsAreUnique(id, s, k, i, s, j, m);
    }
    IsOnePlaceEach(ls);
    FlattenScattered(ob.book.Of(s));
  }

  predicate SameId(ls: seq<Level>, j: int, m: int, k: int, i: int)
    requires IsSpot(ls, j, m) && IsSpot(ls, k, i)
  {
    ls[j].queue[m].id == ls[k].queue[i].id
  }

  lemma SpotIs(ls: seq<Level>, j: int, m: int, k: int, i: int)
    requires IsSpot(ls, j, m) && IsSpot(ls, k, i) && SameId(ls, j, m, k, i)
    ensures 0 <= j < |ls| && 0 <= k < |ls| && 0 <= m < |ls[j].queue| && 0 <= i < |ls[k].queue|
    ensures ls[j].queue[m].id == ls[k].queue[i].id
  {
  }

  lemma IsOnePlaceEach(ls: seq<Level>)
    requires forall j, m, k, i :: IsSpot(ls, j, m) && IsSpot(ls, k, i) && SameId(ls, j, m, k, i) ==> j == k && m == i
    ensures OnePlaceEach(ls)
  {
  }

  /** The orders of a valid book can be put back into an empty one. */
  lemma BookIsRestorable(ob: OrderBook)
    requires ob.Valid()
    ensures Resume.Restorable(Resume.AllOrders(ob.book))
  {
    hide *;
    ob.BookIsOk();
    Resume.BothOk(ob.book);
    BothSides(ob.book);
    FlattenRests(ob.book.bids, Buy);
    FlattenRests(ob.book.asks, Sell);
    SideIsScattered(ob, Buy);
    SideIsScattered(ob, Sell);
    var bids, asks := Flatten(ob.book.bids), Flatten(ob.book.asks);
    forall i, j | 0 <= i < |bids| && 0 <= j < |asks|
      ensures bids[i].id != asks[j].id
    {
      if bids[i].id == asks[j].id {
        var k, m := PlaceInside(ob.book.Of(Buy), bids[i]);
        var l, n := PlaceInside(ob.book.Of(Sell), asks[j]);
        var id := ob.PositionOf(Buy, k, m);
        ob.IdsAreUnique(id, Buy, k, m, Sell, l, n);
      }
    }
    ScatteredTogether(bids, asks);
    IsRestorable(bids, asks);
  }

  lemma IsRestorable(bids: seq<Ord>, asks: seq<Ord>)
    requires AllRest(bids, Buy) && AllRest(asks, Sell) && Resume.Scattered(bids + asks)
    ensures Resume.Restorable(bids + asks)
  {
  }

  function Ids(os: seq<Ord>): set<nat> { set o | o in os :: o.id }

  lemma OneMoreId(os: seq<Ord>, o: Ord)
    ensures Ids(os + [o]) == Ids(os) + {o.id}
  {
    assert forall x <- os + [o] :: x in os || x == o;
    assert (os + [o])[|os|] == o && forall x <- os :: x in os + [o];
  }

  lemma NoIds()
    ensures Ids([]) == {}
  {
  }

  /** Puts the orders of a snapshot into a book, one after the other. */
  method Refill(ob: OrderBook, os: seq<Ord>)
    requires ob.Valid() && Resume.Restorable(os) && forall o <- os :: o.id !in ob.orders
    modifies ob, ob.Bids, ob.Asks, ob.levels
    ensures ob.Valid() && ob.book == Resume.AddAll(old(ob.book), os)
    ensures fresh(ob.levels - old(ob.levels)) && fresh(ob.members - old(ob.members)) && old(ob.levels) <= ob.levels
    ensures ob.orders.Keys == old(ob.orders.Keys) + Ids(os) && (old(ob.Spots()) == map[] ==> ob.Spots() == map[])
  {
    hide *;
    Resume.AddNone(ob.book);
    NoIds();
    assert os[..0] == [] && os[0..] == os;
    for i := 0 to |os|
      invariant ob.Valid() && ob.book == Resume.AddAll(old(ob.book), os[..i])
      invariant (forall o <- os[i..] :: o.id !in ob.orders) && ob.orders.Keys == old(ob.orders.Keys) + Ids(os[..i])
      invariant fresh(ob.levels - old(ob.levels)) && fresh(ob.members - old(ob.members)) && old(ob.levels) <= ob.levels
      invariant old(ob.Spots()) == map[] ==> ob.Spots() == map[]
    {
      var order := new Order(os[i]);
      NextRestorable(os, i, ob.orders.Keys);
      Resume.AddOneMore(old(ob.book), os[..i], os[i]);
      assert os[..i + 1] == os[..i] + [os[i]];
      OneMoreId(os[..i], os[i]);
      ob.RestingAreIndexed();
      NoneToForget(os[i].id);
      ob.AddOrder(order);
    }
    assert os[..|os|] == os;
  }

  lemma NoneToForget(id: nat)
    ensures var none: map<nat, Spot> := map[]; none - {id} == none
  {
  }

  lemma NextRestorable(os: seq<Ord>, i: nat, ids: set<nat>)
    requires Resume.Restorable(os) && i < |os| && forall o <- os[i..] :: o.id !in ids
    ensures Rests(os[i], os[i].side, os[i].price) && os[i].id !in ids
    ensures forall o <- os[i + 1..] :: o.id != os[i].id && o.id !in ids
  {
    assert os[i] in os && os[i..][0] == os[i];
    forall o | o in os[i + 1..]
      ensures o.id != os[i].id && o in os[i..]
    {
      var j :| i + 1 <= j < |os| && os[j] == o;
      assert os[i..][j - i] == o;
    }
  }

  lemma Found(ob: OrderBook, id: nat)
    requires ob.RestsAreFound()
    ensures ob.IsResting(id) <==> Resume.HasOrder(ob.book, id)
  {
  }

  lemma NoSpots(ob: OrderBook)
    ensures ob.orders == map[] ==> ob.Spots() == map[]
  {
  }

  lemma HoldsBook(ob: OrderBook)
    ensures ob.Spots() == map[] ==> Tells(Holding(ob.book), ob)
  {
  }

  /** Nothing of a market has changed. */
  twostate predicate Same(me: MarketEngine)
    reads *
  {
    forall x <- old(Repr(me)) :: unchanged(x)
  }

  /** Everything that belongs to a market is new. */
  twostate predicate IsNew(me: MarketEngine)
    reads *
  {
    forall x <- Repr(me) :: x == me || fresh(x)
  }

  twostate lemma NewIff(me: MarketEngine)
    ensures IsNew(me) <==> forall x <- Repr(me) :: x == me || fresh(x)
  {
  }

  /** Whatever has come to a market is new. */
  twostate predicate Grew(me: MarketEngine)
    reads *
  {
    forall x <- Repr(me) :: x in old(Repr(me)) || fresh(x)
  }

  twostate lemma SameMarket(me: MarketEngine)
    requires Same(me) && old(me.Valid())
    ensures Repr(me) == old(Repr(me)) && me.Valid() && me.OrderBook.book == old(me.OrderBook.book)
    ensures me.OrderBook == old(me.OrderBook) && me.OrderBook.orders == old(me.OrderBook.orders)
    ensures me.run == old(me.run)
  {
    hide OrderBook.Valid;
    assert me in old(Repr(me)) && old(me.OrderBook) in old(Repr(me));
  }

  twostate lemma OldIsOld(me: MarketEngine)
    ensures forall x <- old(Repr(me)) :: !fresh(x)
  {
  }

  twostate lemma IsSame(me: MarketEngine)
    requires forall x <- old(Repr(me)) :: unchanged(x)
    ensures Same(me)
  {
  }

  twostate lemma HasGrown(me: MarketEngine, new order: Order)
    requires me.OrderBook == old(me.OrderBook) && fresh(me.OrderBook.levels - old(me.OrderBook.levels)) && fresh(order)
    requires me.OrderBook.members <= old(me.OrderBook.members) + {order}
    ensures Grew(me)
  {
  }

  twostate lemma HasFreshBook(me: MarketEngine)
    requires fresh(me.OrderBook) && fresh(me.OrderBook.Bids) && fresh(me.OrderBook.Asks)
    requires me.OrderBook.levels == {} && me.OrderBook.members == {}
    ensures Grew(me) && IsNew(me)
  {
  }

  twostate lemma HasRefilled(me: MarketEngine)
    requires me.OrderBook == old(me.OrderBook)
    requires fresh(me.OrderBook.levels - old(me.OrderBook.levels))
    requires fresh(me.OrderBook.members - old(me.OrderBook.members))
    ensures Grew(me) && fresh(Repr(me) - old(Repr(me)))
  {
  }

  /** Every market is valid, and no two of them share anything. */
  ghost predicate Sound(markets: map<string, MarketEngine>)
    reads *
  {
    && (forall symbol <- markets :: markets[symbol].Valid())
    && (forall a <- markets, b <- markets :: a != b ==> Repr(markets[a]) !! Repr(markets[b]))
  }

  ghost predicate Unused(markets: map<string, MarketEngine>)
    reads *
  {
    forall symbol <- markets :: markets[symbol].run == Start && markets[symbol].OrderBook.orders == map[]
  }

  method NewMarkets(symbols: seq<string>) returns (markets: map<string, MarketEngine>)
    ensures Sound(markets) && Unused(markets) && markets.Keys == (set symbol | symbol in symbols)
    ensures forall symbol <- markets :: fresh(Repr(markets[symbol]))
  {
    hide *;
    markets := map[];
    NoMarkets();
    for i := 0 to |symbols|
      invariant Sound(markets) && Unused(markets) && markets.Keys == (set symbol | symbol in symbols[..i])
      invariant forall symbol <- markets :: fresh(Repr(markets[symbol]))
    {
      label Before:
      var me := new MarketEngine(symbols[i]);
      ReprIs(me);
      forall symbol | symbol in markets
        ensures Same@Before(markets[symbol])
      {
        OldIsOld@Before(markets[symbol]);
        IsSame@Before(markets[symbol]);
      }
      OneMoreMarket@Before(markets, symbols[i], me);
      markets := markets[symbols[i] := me];
    }
  }

  lemma NoMarkets()
    ensures Sound(map[]) && Unused(map[])
  {
  }

  lemma ReprIs(me: MarketEngine)
    ensures Repr(me) ==
      {me, me.OrderBook, me.OrderBook.Bids, me.OrderBook.Asks} + me.OrderBook.levels + me.OrderBook.members
  {
  }

  twostate lemma OneMoreMarket(markets: map<string, MarketEngine>, new symbol: string, new me: MarketEngine)
    requires old(Sound(markets) && Unused(markets)) && forall t <- markets :: Same(markets[t])
    requires me.Valid() && me.run == Start && me.OrderBook.orders == map[] && fresh(Repr(me))
    ensures Sound(markets[symbol := me]) && Unused(markets[symbol := me])
    ensures forall t <- markets :: Repr(markets[t]) == old(Repr(markets[t]))
  {
    hide Repr, MarketEngine.Valid;
    forall t | t in markets
      ensures Repr(markets[t]) == old(Repr(markets[t])) && markets[t].Valid()
      ensures markets[t].run == Start && markets[t].OrderBook.orders == map[] && Repr(markets[t]) !! Repr(me)
    {
      SameMarket(markets[t]);
      OldIsOld(markets[t]);
    }
    forall a, b | a in markets && b in markets && a != b
      ensures Repr(markets[a]) !! Repr(markets[b])
    {
      assert old(Repr(markets[a]) !! Repr(markets[b]));
    }
  }

  /** An engine starts with an empty market for each symbol. */
  method StartEngine(symbols: seq<string>) returns (e: Engine)
    ensures fresh(e) && e.Valid() && Unused(e.markets) && e.markets.Keys == (set symbol | symbol in symbols)
  {
    hide *;
    var markets := NewMarkets(symbols);
    label Before:
    e := new Engine(markets);
    forall symbol | symbol in markets
      ensures Same@Before(markets[symbol])
    {
      OldIsOld@Before(markets[symbol]);
      IsSame@Before(markets[symbol]);
    }
    StaysSound@Before(markets);
    e.EngineIsValid();
  }

  twostate lemma StaysSound(markets: map<string, MarketEngine>)
    requires old(Sound(markets)) && forall symbol <- markets :: Same(markets[symbol])
    ensures Sound(markets) && (old(Unused(markets)) ==> Unused(markets))
    ensures forall symbol <- markets :: Repr(markets[symbol]) == old(Repr(markets[symbol]))
    ensures forall symbol <- markets :: markets[symbol].OrderBook.book == old(markets[symbol].OrderBook.book)
    ensures forall symbol <- markets :: markets[symbol].OrderBook.orders == old(markets[symbol].OrderBook.orders)
  {
    hide Repr, MarketEngine.Valid;
    forall symbol | symbol in markets
      ensures Repr(markets[symbol]) == old(Repr(markets[symbol])) && markets[symbol].Valid()
      ensures markets[symbol].OrderBook.book == old(markets[symbol].OrderBook.book)
      ensures markets[symbol].OrderBook.orders == old(markets[symbol].OrderBook.orders)
      ensures markets[symbol].run == old(markets[symbol].run)
    {
      SameMarket(markets[symbol]);
    }
    forall a, b | a in markets && b in markets && a != b
      ensures Repr(markets[a]) !! Repr(markets[b])
    {
      assert old(Repr(markets[a]) !! Repr(markets[b]));
    }
  }

  class Engine {
    const markets: map<string, MarketEngine>

    ghost function Footprint(): set<object>
      reads *
    {
      set symbol, x | symbol in markets && x in Repr(markets[symbol]) :: x
    }

    ghost predicate Valid()
      reads *
    {
      Sound(markets)
    }

    constructor (markets: map<string, MarketEngine>)
      ensures this.markets == markets
    {
      this.markets := markets;
    }

    /** The order books of all markets, as values. */
    ghost function Books(): (bs: map<string, Book>)
      reads *
      ensures bs.Keys == markets.Keys
    {
      map symbol | symbol in markets :: markets[symbol].OrderBook.book
    }

    lemma MarketIs(symbol: string)
      requires Valid() && symbol in markets
      ensures var me := markets[symbol]; me.Valid() && Repr(me) <= Footprint()
      ensures Repr(markets[symbol]) == {markets[symbol], markets[symbol].OrderBook, markets[symbol].OrderBook.Bids,
                markets[symbol].OrderBook.Asks} + markets[symbol].OrderBook.levels + markets[symbol].OrderBook.members
      ensures forall t <- markets :: t != symbol ==> Repr(markets[t]) !! Repr(markets[symbol])
      ensures symbol in Books() && Books()[symbol] == markets[symbol].OrderBook.book
    {
      hide MarketEngine.Valid;
    }

    /** One market has changed, and has got nothing but new objects. */
    twostate lemma OneMarketChanged(new symbol: string)
      requires old(Valid()) && symbol in markets && markets[symbol].Valid() && Grew(markets[symbol])
      requires forall t <- markets :: t != symbol ==> Same(markets[t])
      ensures Valid() && fresh(Footprint() - old(Footprint()))
      ensures Books() == old(Books())[symbol := markets[symbol].OrderBook.book]
      ensures forall t <- markets :: t != symbol ==> markets[t].OrderBook.orders == old(markets[t].OrderBook.orders)
      ensures forall t <- markets :: t != symbol ==> Repr(markets[t]) == old(Repr(markets[t]))
    {
      hide *;
      forall t | t in markets && t != symbol
        ensures Repr(markets[t]) == old(Repr(markets[t])) && markets[t].Valid()
        ensures markets[t].OrderBook.book == old(markets[t].OrderBook.book)
        ensures markets[t].OrderBook == old(markets[t].OrderBook)
        ensures markets[t].OrderBook.orders == old(markets[t].OrderBook.orders)
      {
        OldMarket(t);
        SameMarket(markets[t]);
      }
      StaysApart(symbol);
      FootprintGrew(symbol);
      BooksChanged(symbol);
    }

    twostate lemma OldMarket(new t: string)
      requires old(Valid()) && t in markets
      ensures old(markets[t].Valid())
    {
    }

    twostate lemma StaysApart(new symbol: string)
      requires old(Valid()) && symbol in markets && Grew(markets[symbol]) && forall t <- markets :: markets[t].Valid()
      requires forall t <- markets :: t != symbol ==> Repr(markets[t]) == old(Repr(markets[t]))
      ensures Valid()
    {
      hide Repr, MarketEngine.Valid;
      forall a, b | a in markets && b in markets && a != b
        ensures Repr(markets[a]) !! Repr(markets[b])
      {
        assert old(Repr(markets[a]) !! Repr(markets[b]));
        OldIsOld(markets[a]);
        OldIsOld(markets[b]);
      }
    }

    twostate lemma FootprintGrew(new symbol: string)
      requires symbol in markets && Grew(markets[symbol])
      requires forall t <- markets :: t != symbol ==> Repr(markets[t]) == old(Repr(markets[t]))
      ensures fresh(Footprint() - old(Footprint()))
    {
      hide Repr;
    }

    twostate lemma BooksChanged(new symbol: string)
      requires symbol in markets
      requires forall t <- markets :: t != symbol ==> markets[t].OrderBook.book == old(markets[t].OrderBook.book)
      ensures Books() == old(Books())[symbol := markets[symbol].OrderBook.book]
    {
    }

    twostate lemma NothingMoved()
      requires old(Valid()) && forall symbol <- markets :: Same(markets[symbol])
      ensures Valid() && Books() == old(Books()) && Footprint() == old(Footprint())
      ensures forall symbol <- markets, os :: old(Holds(symbol, os)) ==> Holds(symbol, os)
    {
      hide Repr, MarketEngine.Valid, Sound;
      StaysSound(markets);
    }

    lemma EngineIsValid()
      requires Sound(markets)
      ensures Valid()
    {
    }

    lemma ValuesAreIn()
      ensures forall me <- markets.Values :: me in Footprint()
    {
      forall symbol | symbol in markets
        ensures markets[symbol] in Footprint()
      {
        assert markets[symbol] in Repr(markets[symbol]);
      }
    }

    /** An order as it comes out of the log: a new object. */
    method ApplyOrder(o: Ord) returns (order: Order?, ghost trades: seq<Trade>)
      requires Valid() && o.Fresh() && (o.symbol in markets ==> !Resume.HasOrder(Books()[o.symbol], o.id))
      modifies Footprint()
      ensures Valid() && (order != null <==> o.symbol in markets) && fresh(Footprint() - old(Footprint()))
      ensures order == null ==> Books() == old(Books())
      ensures order != null ==>
        var p := Process(old(Books())[o.symbol], o);
        && Books() == old(Books())[o.symbol := p.book] && fresh(order) && order.View() == p.taker && trades == p.trades
        && AllFilled(markets[o.symbol].OrderBook, p.filled)
    {
      hide *;
      if o.symbol !in markets {
        return null, [];
      }
      MarketIs(o.symbol);
      var me := markets[o.symbol];
      me.EngineValidIff();
      me.OrderBook.BookIsOk();
      me.OrderBook.FindsAll();
      Found(me.OrderBook, o.id);
      StepIs(me.run, o);
      order := new Order(o);
      OwnView(order);
      label Before:
      trades := me.ProcessOrder(order);
      me.EngineValidIff();
      HasGrown(me, order);
      forall t | t in markets && t != o.symbol
        ensures Same(markets[t])
      {
        OldIsOld(markets[t]);
        IsSame(markets[t]);
      }
      OneMarketChanged(o.symbol);
    }

    /** Cancels by market and ID: one step of that market's run, after which all parts agree exactly if the step was
        harmless; an unknown market changes nothing. */
    method CancelOrder(symbol: string, orderID: nat) returns (found: bool, order: Order?)
      requires Valid()
      modifies Footprint()
      ensures found <==> symbol in markets
      ensures !found ==> order == null && Valid() && Books() == old(Books())
      ensures found ==>
        var r, index := old(markets[symbol].run), old(markets[symbol].OrderBook.orders);
        && order == (if orderID in index then index[orderID].Order else null)
        && (order != null ==> order.View() == old(index[orderID].Order.View()).(status := Cancelled))
        && markets[symbol].run == Step(r, Withdraw(orderID))
        && Books() == old(Books())[symbol := Step(r, Withdraw(orderID)).book]
        && (Valid() <==> Harmless(r, Withdraw(orderID)))
    {
      hide *;
      if symbol !in markets {
        return false, null;
      }
      MarketIs(symbol);
      var me := markets[symbol];
      found := true;
      order := me.CancelOrder(orderID);
      HasRefilled(me);
      forall t | t in markets && t != symbol
        ensures Same(markets[t])
      {
        OldIsOld(markets[t]);
        IsSame(markets[t]);
      }
      OthersStay(symbol);
      BooksChanged(symbol);
      if me.Valid() {
        OneMarketChanged(symbol);
      } else {
        NotSound(symbol);
      }
    }

    twostate lemma OthersStay(new symbol: string)
      requires old(Valid()) && forall t <- markets :: t != symbol ==> Same(markets[t])
      ensures forall t <- markets :: t != symbol ==> markets[t].OrderBook.book == old(markets[t].OrderBook.book)
    {
      hide *;
      forall t | t in markets && t != symbol
        ensures markets[t].OrderBook.book == old(markets[t].OrderBook.book)
      {
        OldMarket(t);
        SameMarket(markets[t]);
      }
    }

    lemma NotSound(symbol: string)
      requires symbol in markets && !markets[symbol].Valid()
      ensures !Valid()
    {
    }

    /** All resting orders of all markets. */
    method GetAllOrders() returns (orders: map<string, seq<Ord>>)
      requires Valid()
      ensures orders == map symbol | symbol in markets :: Resume.AllOrders(Books()[symbol])
    {
      hide *;
      orders := map[];
      var rest := markets.Keys;
      while rest != {}
        invariant rest <= markets.Keys && orders.Keys == markets.Keys - rest
        invariant forall symbol <- orders :: symbol in markets && orders[symbol] == Resume.AllOrders(Books()[symbol])
      {
        var symbol :| symbol in rest;
        MarketIs(symbol);
        orders := orders[symbol := OrdersOf(markets[symbol])];
        rest := rest - {symbol};
      }
    }

    /** One market starts again from an empty book. */
    method ClearBook(symbol: string)
      requires Valid() && symbol in markets
      modifies markets[symbol]
      ensures Valid() && Books() == old(Books())[symbol := Book([], [])]
      ensures IsNew(markets[symbol]) && markets[symbol].OrderBook.orders == map[]
      ensures forall t <- markets :: t != symbol ==> Repr(markets[t]) == old(Repr(markets[t]))
      ensures forall t <- markets :: t != symbol ==> markets[t].OrderBook.orders == old(markets[t].OrderBook.orders)
    {
      hide *;
      MarketIs(symbol);
      var me := markets[symbol];
      me.OrderBook := new OrderBook(me.OrderBook.Symbol);
      me.run := Start;
      StartsEmpty(me.OrderBook);
      me.EngineValidIff();
      HasFreshBook(me);
      forall t | t in markets && t != symbol
        ensures Same(markets[t])
      {
        OldIsOld(markets[t]);
        IsSame(markets[t]);
      }
      OneMarketChanged(symbol);
    }

    /** Every market starts again from an empty book. */
    method ClearBooks()
      requires Valid()
      modifies markets.Values
      ensures Valid() && Books() == map symbol | symbol in markets :: Book([], [])
      ensures forall symbol <- markets :: markets[symbol].OrderBook.orders == map[]
      ensures forall symbol <- markets :: IsNew(markets[symbol])
    {
      hide *;
      var rest := markets.Keys;
      while rest != {}
        invariant rest <= markets.Keys && Valid()
        invariant forall symbol <- markets :: symbol !in rest ==> Books()[symbol] == Book([], [])
        invariant forall symbol <- markets :: symbol !in rest ==>
          IsNew(markets[symbol]) && markets[symbol].OrderBook.orders == map[]
      {
        var symbol :| symbol in rest;
        forall t | t in markets && t !in rest
          ensures forall x <- Repr(markets[t]) :: x == markets[t] || fresh(x)
        {
          NewIff(markets[t]);
        }
        label Before:
        ClearBook(symbol);
        rest := rest - {symbol};
        forall t | t in markets && t !in rest
          ensures IsNew(markets[t]) && markets[t].OrderBook.orders == map[]
        {
          if t == symbol {
            assert IsNew@Before(markets[t]);
            NewIff(markets[t]);
            NewIff@Before(markets[t]);
          } else {
            assert old@Before(markets[t].OrderBook.orders) == map[];
            assert Repr(markets[t]) == old@Before(Repr(markets[t]));
            NewIff(markets[t]);
          }
        }
      }
    }

    /** One market gets its orders back. */
    method RefillBook(symbol: string, os: seq<Ord>)
      requires Valid() && symbol in markets && Resume.Restorable(os) && markets[symbol].OrderBook.orders == map[]
      modifies Repr(markets[symbol])
      ensures Valid() && Books() == old(Books())[symbol := Resume.AddAll(old(Books())[symbol], os)]
      ensures markets[symbol].OrderBook.orders.Keys == Ids(os)
      ensures fresh(Footprint() - old(Footprint()))
      ensures forall t <- markets :: t != symbol ==> markets[t].OrderBook.orders == old(markets[t].OrderBook.orders)
    {
      hide *;
      MarketIs(symbol);
      var me := markets[symbol];
      me.EngineValidIff();
      NoSpots(me.OrderBook);
      Refill(me.OrderBook, os);
      me.run := Holding(me.OrderBook.book);
      HoldsBook(me.OrderBook);
      me.EngineValidIff();
      HasRefilled(me);
      forall t | t in markets && t != symbol
        ensures Same(markets[t])
      {
        OldIsOld(markets[t]);
        IsSame(markets[t]);
      }
      OneMarketChanged(symbol);
    }

    /** What a market gets back from a snapshot, as long as the markets in rest are still to come. */
    static function Share(orders: map<string, seq<Ord>>, rest: set<string>, symbol: string): seq<Ord> {
      if symbol in orders && symbol !in rest then orders[symbol] else []
    }

    ghost predicate Holds(symbol: string, os: seq<Ord>)
      reads *
    {
      && symbol in markets && Books()[symbol] == Resume.AddAll(Book([], []), os)
      && markets[symbol].OrderBook.orders.Keys == Ids(os)
    }

    lemma HoldsIff(symbol: string, os: seq<Ord>)
      requires symbol in markets
      ensures Holds(symbol, os) <==>
        Books()[symbol] == Resume.AddAll(Book([], []), os) && markets[symbol].OrderBook.orders.Keys == Ids(os)
      ensures Resume.AddAll(Book([], []), []) == Book([], []) && Ids([]) == {}
      ensures Holds(symbol, []) ==> markets[symbol].OrderBook.orders == map[]
    {
      hide Books;
    }

    lemma NextShare(orders: map<string, seq<Ord>>, rest: set<string>, symbol: string)
      requires symbol in rest && rest <= orders.Keys
      ensures Share(orders, rest, symbol) == [] && Share(orders, rest - {symbol}, symbol) == orders[symbol]
      ensures forall t :: t != symbol ==> Share(orders, rest - {symbol}, t) == Share(orders, rest, t)
    {
    }

    lemma FirstShare(orders: map<string, seq<Ord>>)
      ensures forall t :: Share(orders, orders.Keys, t) == []
      ensures forall t :: Share(orders, {}, t) == if t in orders then orders[t] else []
    {
    }

    /** Every known market gets its orders back. */
    method RefillBooks(orders: map<string, seq<Ord>>)
      requires Valid() && forall symbol <- orders :: symbol in markets ==> Resume.Restorable(orders[symbol])
      requires forall symbol <- markets :: Holds(symbol, [])
      modifies Footprint()
      ensures Valid() && forall x <- Footprint() :: x in old(Footprint()) || fresh(x)
      ensures forall symbol <- markets :: Holds(symbol, if symbol in orders then orders[symbol] else [])
    {
      hide *;
      FirstShare(orders);
      var rest := orders.Keys;
      while rest != {}
        invariant rest <= orders.Keys && Valid() && forall x <- Footprint() :: x in old(Footprint()) || fresh(x)
        invariant forall t <- markets :: Holds(t, Share(orders, rest, t))
      {
        var symbol :| symbol in rest;
        NextShare(orders, rest, symbol);
        if symbol in markets {
          label Before:
          MarketIs(symbol);
          HoldsIff(symbol, []);
          RefillBook(symbol, orders[symbol]);
          assert forall x <- Footprint() :: x in old@Before(Footprint()) || fresh@Before(x);
          HoldsIff(symbol, orders[symbol]);
          OthersHold@Before(orders, rest, symbol);
        }
        rest := rest - {symbol};
      }
    }

    /** Replaces all books by what a snapshot holds; markets the snapshot does not know stay empty, and markets that
        only the snapshot knows are skipped. */
    method RestoreOrders(orders: map<string, seq<Ord>>)
      requires Valid() && forall symbol <- orders :: symbol in markets ==> Resume.Restorable(orders[symbol])
      modifies markets.Values
      ensures Valid() && forall x <- Footprint() :: x in old(Footprint()) || fresh(x)
      ensures forall symbol <- markets :: Holds(symbol, if symbol in orders then orders[symbol] else [])
    {
      hide *;
      ValuesAreIn();
      ClearBooks();
      forall t | t in markets
        ensures Holds(t, [])
      {
        HoldsIff(t, []);
      }
      AllNew();
      RefillBooks(orders);
    }

    twostate lemma AllNew()
      requires forall symbol <- markets :: IsNew(markets[symbol])
      ensures forall x <- Footprint() :: x in markets.Values || fresh(x)
    {
      hide Repr;
    }

    twostate lemma OthersHold(new orders: map<string, seq<Ord>>, new rest: set<string>, new symbol: string)
      requires forall t <- markets :: old(Holds(t, Share(orders, rest, t)))
      requires forall t <- markets :: t != symbol ==>
        Books()[t] == old(Books()[t]) && markets[t].OrderBook.orders == old(markets[t].OrderBook.orders)
      ensures forall t <- markets :: t != symbol ==> Holds(t, Share(orders, rest, t))
    {
      hide Books, Share;
    }
  }

  // ------------------------------------------------------------------ the state machine

  datatype Answer = Sequence(n: nat) | Failed | Nothing

  class MatchStateMachine {
    const applier: Engine
    var sequence: nat

    /** The state of the machine, as a value. */
    ghost function State(): Resume.Node
      reads *
    {
      Resume.Node(applier.Books(), sequence)
    }

    constructor (applier: Engine)
      ensures this.applier == applier && sequence == 0
    {
      this.applier, sequence := applier, 0;
    }

    /** One entry of the log. */
    method Apply(e: Resume.Entry) returns (answer: Answer, ghost reply: Resume.Reply)
      requires applier.Valid() && Resume.Takes(State(), e)
      modifies this, applier.Footprint()
      ensures applier.Valid() && (State(), reply) == Resume.Apply(old(State()), e) && answer == AnswerTo(reply)
      ensures forall x <- applier.Footprint() :: x in old(applier.Footprint()) || fresh(x)
    {
      hide *;
      ApplyCases(State(), e);
      CanTake(e);
      StateIs();
      NotTouched();
      match e {
        case OrderEntry(o) =>
          ghost var book := if o.symbol in applier.Books() then applier.Books()[o.symbol] else Book([], []);
          var order, trades := applier.ApplyOrder(o);
          if order == null {
            StateIs();
            return Failed, Resume.NoMarket;
          }
          CountIs();
          ghost var taker, filled := order.View(), Process(book, o).filled;
          SetSequence((sequence + 1) % Resume.UINT64);
          StateIs();
          return Sequence(sequence), Resume.Applied(sequence, taker, filled, trades);
        case SnapshotEntry(s) =>
          Restore(s);
          return Nothing, Resume.Restored;
      }
    }

    /** A log, entry by entry. */
    method ApplyLog(log: seq<Resume.Entry>) returns (ghost replies: seq<Resume.Reply>)
      requires applier.Valid() && Resume.TakesAll(State(), log)
      modifies this, applier.Footprint()
      ensures applier.Valid() && (State(), replies) == Resume.ApplyAll(old(State()), log)
      ensures forall x <- applier.Footprint() :: x in old(applier.Footprint()) || fresh(x)
    {
      hide *;
      replies := [];
      StartsLog(State(), log);
      NotTouched();
      for i := 0 to |log|
        invariant applier.Valid() && Resume.TakesAll(State(), log[i..])
        invariant forall x <- applier.Footprint() :: x in old(applier.Footprint()) || fresh(x)
        invariant Resume.ApplyAll(old(State()), log) ==
          (Resume.ApplyAll(State(), log[i..]).0, replies + Resume.ApplyAll(State(), log[i..]).1)
      {
        NextEntry(State(), log, i, replies);
        label Before:
        var answer, reply := Apply(log[i]);
        assert forall x <- applier.Footprint() :: x in old@Before(applier.Footprint()) || fresh@Before(x);
        replies := replies + [reply];
      }
      LogEnds(State(), log, replies);
    }

    lemma StateIs()
      ensures State() == Resume.Node(applier.Books(), sequence) && applier.Books().Keys == applier.markets.Keys
    {
    }

    lemma CountIs()
      ensures Resume.UINT64 > 0
    {
    }

    /** The applier does not care about the machine's own counter. */
    method SetSequence(n: nat)
      requires applier.Valid()
      modifies this`sequence
      ensures sequence == n && applier.Valid() && applier.Books() == old(applier.Books())
      ensures applier.Footprint() == old(applier.Footprint())
      ensures forall symbol <- applier.markets, os ::
        old(applier.Holds(symbol, os)) ==> applier.Holds(symbol, os)
    {
      hide *;
      sequence := n;
      forall symbol | symbol in applier.markets
        ensures Same(applier.markets[symbol])
      {
        OldIsOld(applier.markets[symbol]);
        NotMine(applier.markets[symbol]);
        IsSame(applier.markets[symbol]);
      }
      applier.NothingMoved();
    }

    lemma NotTouched()
      ensures this !in applier.Footprint()
    {
    }

    twostate lemma NotMine(me: MarketEngine)
      ensures this !in old(Repr(me))
    {
    }

    lemma CanTake(e: Resume.Entry)
      requires Resume.Takes(State(), e)
      ensures e.OrderEntry? ==> e.o.Fresh()
      ensures e.OrderEntry? && e.o.symbol in applier.markets ==> !Resume.HasOrder(applier.Books()[e.o.symbol], e.o.id)
      ensures e.SnapshotEntry? ==> Proper(e.snapshot)
    {
      hide Resume.HasOrder, Ord.Fresh, Resume.Restorable;
    }

    predicate Proper(s: Resume.Snapshot) {
      forall symbol <- s.orders :: symbol in applier.markets ==> Resume.Restorable(s.orders[symbol])
    }

    method Snapshot() returns (s: Resume.Snapshot)
      requires applier.Valid()
      ensures s == Resume.TakeSnapshot(State()) && Proper(s)
    {
      hide *;
      StateIs();
      SnapshotIsProper();
      SnapshotIs(State());
      var orders := applier.GetAllOrders();
      s := Resume.Snapshot(orders, sequence);
    }

    /** What a valid machine writes into a snapshot can be restored again. */
    lemma SnapshotIsProper()
      requires applier.Valid()
      ensures Proper(Resume.TakeSnapshot(State()))
    {
      forall symbol | symbol in applier.markets
        ensures Resume.Restorable(Resume.AllOrders(applier.markets[symbol].OrderBook.book))
      {
        BookIsRestorable(applier.markets[symbol].OrderBook);
      }
      hide Resume.Restorable, OrderBook.Valid, Resume.AllOrders;
    }

    method Restore(s: Resume.Snapshot)
      requires applier.Valid() && Proper(s)
      modifies this, applier.Footprint()
      ensures applier.Valid() && State() == Resume.Restore(old(State()), s)
      ensures forall x <- applier.Footprint() :: x in old(applier.Footprint()) || fresh(x)
    {
      hide *;
      StateIs();
      ProperIs(s);
      NotTouched();
      applier.ValuesAreIn();
      applier.RestoreOrders(s.orders);
      SetSequence(s.sequence);
      IsRestored(old(State()), s);
    }

    lemma ProperIs(s: Resume.Snapshot)
      requires Proper(s)
      ensures forall symbol <- s.orders :: symbol in applier.markets ==> Resume.Restorable(s.orders[symbol])
    {
    }

    lemma IsRestored(n: Resume.Node, s: Resume.Snapshot)
      requires n.books.Keys == applier.markets.Keys && sequence == s.sequence
      requires forall symbol <- applier.markets ::
        applier.Holds(symbol, if symbol in s.orders then s.orders[symbol] else [])
      ensures State() == Resume.Restore(n, s)
    {
      hide Resume.AddAll;
    }
  }

  // ------------------------------------------------------------------ a log that is resumed on another machine

  lemma StateIsOk(m: MatchStateMachine)
    requires m.applier.Valid()
    ensures Resume.NodeOk(m.State()) && m.State().books.Keys == m.applier.markets.Keys
  {
    hide OrderBook.Linked, Repr;
  }

  twostate lemma FootprintHas(e: Engine, new symbol: string)
    requires symbol in e.markets
    ensures old(Repr(e.markets[symbol])) <= old(e.Footprint())
  {
    hide Repr;
  }

  lemma ProperThere(m: MatchStateMachine, spare: MatchStateMachine, s: Resume.Snapshot)
    requires m.Proper(s) && spare.applier.markets.Keys == m.applier.markets.Keys
    ensures spare.Proper(s)
  {
  }

  /** What the rest of a log finds on a machine restored from a snapshot taken in the middle of it. */
  lemma ResumesAt(n: Resume.Node, spare: Resume.Node, log: seq<Resume.Entry>, cut: nat)
    requires Resume.NodeOk(n) && cut <= |log| && (forall e <- log :: Resume.Steady(e))
    requires spare.books.Keys == n.books.Keys
    requires Resume.TakesAll(n, log)
    ensures var m := Resume.ApplyAll(n, log[..cut]).0;
      var restored := Resume.Restore(spare, Resume.TakeSnapshot(m));
      && Resume.TakesAll(n, log[..cut]) && Resume.TakesAll(restored, log[cut..])
      && Resume.ApplyAll(n, log[..cut]).1 + Resume.ApplyAll(restored, log[cut..]).1 == Resume.ApplyAll(n, log).1
      && Resume.Alike(Resume.ApplyAll(restored, log[cut..]).0, Resume.ApplyAll(n, log).0)
  {
    hide *;
    var m := Resume.ApplyAll(n, log[..cut]).0;
    assert log == log[..cut] + log[cut..];
    Resume.TakesSplit(n, log[..cut], log[cut..]);
    Resume.ResumedRunIsTheSame(n, spare, log, cut);
    SteadySubmissions(log[..cut]);
    Resume.StaysOk(n, log[..cut]);
    Resume.SameMarkets(n, log[..cut]);
    Resume.RestoreIsAlike(m, spare);
    Resume.AlikeSymmetric(Resume.Restore(spare, Resume.TakeSnapshot(m)), m);
    Resume.TakesAllAlike(m, Resume.Restore(spare, Resume.TakeSnapshot(m)), log[cut..]);
  }

  lemma SteadySubmissions(log: seq<Resume.Entry>)
    requires forall e <- log :: Resume.Steady(e)
    ensures forall e <- log :: Resume.IsSubmission(e)
  {
  }

  /** The first part of a log on one machine, the rest on another one that was restored from a snapshot of it: the
      answers and trades are those of the whole log on the first machine, and so are all queues and the sequence
      number. */
  method ResumeElsewhere(m: MatchStateMachine, spare: MatchStateMachine, log: seq<Resume.Entry>, cut: nat)
    returns (ghost replies: seq<Resume.Reply>)
    requires m.applier.Valid() && spare.applier.Valid() && m != spare
    requires m.applier.Footprint() !! spare.applier.Footprint()
    requires spare.applier.markets.Keys == m.applier.markets.Keys && cut <= |log|
    requires Resume.TakesAll(m.State(), log) && forall e <- log :: Resume.Steady(e)
    modifies m, spare, m.applier.Footprint(), spare.applier.Footprint()
    ensures spare.applier.Valid() && replies == Resume.ApplyAll(old(m.State()), log).1
    ensures Resume.Alike(spare.State(), Resume.ApplyAll(old(m.State()), log).0)
  {
    hide *;
    StateIsOk(m);
    StateIsOk(spare);
    NeitherIn(m, spare);
    ghost var n := m.State();
    ResumesAt(n, spare.State(), log, cut);
    assert forall x <- spare.applier.Footprint() :: x !in m.applier.Footprint() && x != m;
    replies := m.ApplyLog(log[..cut]);
    forall symbol | symbol in spare.applier.markets
      ensures Same(spare.applier.markets[symbol])
    {
      FootprintHas(spare.applier, symbol);
      OldIsOld(spare.applier.markets[symbol]);
      IsSame(spare.applier.markets[symbol]);
    }
    spare.applier.NothingMoved();
    StateIsOk(spare);
    ResumesAt(n, spare.State(), log, cut);
    var s := m.Snapshot();
    ProperThere(m, spare, s);
    spare.Restore(s);
    ghost var more := spare.ApplyLog(log[cut..]);
    replies := replies + more;
  }

  lemma NeitherIn(m: MatchStateMachine, spare: MatchStateMachine)
    ensures spare !in m.applier.Footprint() && m !in spare.applier.Footprint()
  {
  }

  lemma StartsLog(n: Resume.Node, log: seq<Resume.Entry>)
    ensures log[0..] == log && Resume.ApplyAll(n, log) == (Resume.ApplyAll(n, log).0, [] + Resume.ApplyAll(n, log).1)
  {
    hide Resume.ApplyAll;
    assert [] + Resume.ApplyAll(n, log).1 == Resume.ApplyAll(n, log).1;
  }

  lemma NextEntry(n: Resume.Node, log: seq<Resume.Entry>, i: nat, before: seq<Resume.Reply>)
    requires i < |log| && Resume.TakesAll(n, log[i..])
    ensures Resume.Takes(n, log[i]) && Resume.TakesAll(Resume.Apply(n, log[i]).0, log[i + 1..])
    ensures var (m, r) := Resume.Apply(n, log[i]);
      && Resume.ApplyAll(n, log[i..]).0 == Resume.ApplyAll(m, log[i + 1..]).0
      && before + Resume.ApplyAll(n, log[i..]).1 == before + [r] + Resume.ApplyAll(m, log[i + 1..]).1
  {
    hide Resume.Apply, Resume.Takes;
    assert log[i..][0] == log[i] && log[i..][1..] == log[i + 1..];
    var (m, r) := Resume.Apply(n, log[i]);
    assert before + ([r] + Resume.ApplyAll(m, log[i + 1..]).1) == before + [r] + Resume.ApplyAll(m, log[i + 1..]).1;
  }

  lemma LogEnds(n: Resume.Node, log: seq<Resume.Entry>, replies: seq<Resume.Reply>)
    ensures Resume.ApplyAll(n, log[|log|..]) == (n, []) && replies + [] == replies
  {
  }

  function AnswerTo(r: Resume.Reply): Answer {
    match r
    case Applied(n, _, _, _) => Sequence(n)
    case NoMarket => Failed
    case Restored => Nothing
  }

  lemma ApplyCases(n: Resume.Node, e: Resume.Entry)
    ensures e.OrderEntry? && e.o.symbol !in n.books ==> Resume.Apply(n, e) == (n, Resume.NoMarket)
    ensures e.OrderEntry? && e.o.symbol in n.books ==>
      var next, p := (n.sequence + 1) % Resume.UINT64, Process(n.books[e.o.symbol], e.o);
      Resume.Apply(n, e) ==
        (Resume.Node(n.books[e.o.symbol := p.book], next), Resume.Applied(next, p.taker, p.filled, p.trades))
    ensures e.SnapshotEntry? ==> Resume.Apply(n, e) == (Resume.Restore(n, e.snapshot), Resume.Restored)
    ensures AnswerTo(Resume.Restored) == Nothing && AnswerTo(Resume.NoMarket) == Failed
    ensures forall n, o, filled, trades :: AnswerTo(Resume.Applied(n, o, filled, trades)) == Sequence(n)
  {
    hide Process, Resume.AddAll;
  }

  lemma SnapshotIs(n: Resume.Node)
    ensures Resume.TakeSnapshot(n) ==
      Resume.Snapshot(map symbol | symbol in n.books :: Resume.AllOrders(n.books[symbol]), n.sequence)
  {
  }
}
