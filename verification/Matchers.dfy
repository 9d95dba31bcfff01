/** The limit and the market matcher, which change the taker, the makers, the queues and the trees in place. */
module Matchers {
  import opened Models
  import opened BookSpec
  import opened MatchLaws
  import opened LimitLaws
  import opened Levels
  import opened RBShape
  import opened RBTrees
  import opened OrderBooks

  // ------------------------------------------------------------------ one level

  /** Every order of a queue is an object of its own, and none of them is the taker. */
  predicate Apart(taker: Order, es: seq<Element>) {
    && (forall e <- es :: e.order != taker)
    && forall i, j :: 0 <= i < j < |es| ==> es[i].order != es[j].order
  }

  /** The queue of a level as a taker finds it: unfinished orders, each of them another object. */
  ghost predicate Matchable(taker: Order, level: PriceLevel)
    reads taker, level, set e | e in level.Orders :: e.order
  {
    && taker.View().Kept() && (taker.RemainAmount > 0.0 ==> taker.View().Open())
    && Apart(taker, level.Orders) && forall e <- level.Orders :: e.order.View().Kept() && e.order.View().CanCancel()
  }

  lemma FirstFill(taker: Order, level: PriceLevel, amt: real)
    requires Matchable(taker, level) && taker.RemainAmount > 0.0 && level.Orders != []
    requires amt == Min(taker.RemainAmount, level.Orders[0].order.RemainAmount) && amt > 0.0
    ensures level.Orders[0].order != taker
    ensures var c := Cost(level.Price, amt);
      var t, m := taker.View().Fill(amt, c), level.Orders[0].order.View().Fill(amt, c);
      && t.Kept() && (t.remain > 0.0 ==> t.Open()) && (t.remain == 0.0 || m.IsFinished())
      && (m.IsFinished() ==> Spent(m) && m.remain == 0.0) && (!m.IsFinished() ==> m.Kept() && m.CanCancel())
  {
    hide Cost;
    assert level.Orders[0] in level.Orders;
  }

  /** The list loses its first order. */
  method DropFirst(level: PriceLevel, id: nat)
    requires level.Orders != [] && level.Orders[0].order.ID == id && level.Orders[0].order.RemainAmount == 0.0
    modifies level
    ensures level.Orders == old(level.Orders)[1..] && level.Total == old(level.Total)
  {
    HasFirst(level);
    hide *;
    var removed, at := level.RemoveOrder(id);
    assert old(level.Orders)[..0] + old(level.Orders)[1..] == old(level.Orders)[1..];
  }

  lemma HasFirst(level: PriceLevel)
    requires level.Orders != []
    ensures HasId(level.View().queue, level.Orders[0].order.ID)
  {
    assert level.View().queue[0] in level.View().queue;
  }

  /** A result names its last trade and that trade's maker. */
  ghost predicate NamesMaker(result: TradeResult)
    reads result
  {
    result.Trades != [] ==>
      var last := result.Trades[|result.Trades| - 1];
      result.Trade == Some(last) && result.MakerOrder != null && result.MakerOrder.ID == last.maker
  }

  lemma NamesLast(result: TradeResult, before: seq<Trade>, trade: Trade)
    requires result.Trades == before + [trade] && result.Trade == Some(trade)
    requires result.MakerOrder != null && result.MakerOrder.ID == trade.maker
    ensures NamesMaker(result)
  {
  }

  /** One fill between the taker and the first order of a level. */
  method FillFirst(taker: Order, maker: Order, level: PriceLevel, result: TradeResult, amt: real)
    requires Matchable(taker, level) && taker.RemainAmount > 0.0
    requires level.Orders != [] && level.Orders[0].order == maker
    requires amt == Min(taker.RemainAmount, maker.RemainAmount) > 0.0
    modifies taker, maker, level, result`Trade, result`Trades, result`MakerOrder
    ensures var t, m := old(taker.View()), old(maker.View());
      && taker.View() == t.Fill(amt, Cost(level.Price, amt)) && maker.View() == m.Fill(amt, Cost(level.Price, amt))
      && result.Trades == old(result.Trades) + [NewTrade(t.symbol, t, m, level.Price, amt)]
      && level.Orders == (if maker.View().IsFinished() then old(level.Orders)[1..] else old(level.Orders))
    ensures |result.Trades| > 0 && Records(result.Trades[|result.Trades| - 1], taker, maker, level.Price, amt)
    ensures taker.FilledAmount == old(taker.FilledAmount) + amt && maker.FilledAmount == old(maker.FilledAmount) + amt
    ensures taker.FilledTotal == old(taker.FilledTotal) + level.Price * amt
    ensures maker.FilledTotal == old(maker.FilledTotal) + level.Price * amt
    ensures level.Total == old(level.Total) && NamesMaker(result)
    ensures Matchable(taker, level) && (maker.View().IsFinished() ==> Spent(maker.View()))
    ensures taker.RemainAmount == 0.0 || maker.View().IsFinished()
  {
    FirstFill(taker, level, amt);
    OwnTerms(taker);
    OwnTerms(maker);
    TradeRecords(taker, maker, level.Price, amt);
    hide *;
    var trade := NewTrade(taker.Symbol, taker.View(), maker.View(), level.Price, amt);
    result.AddTrade(trade);
    result.MakerOrder := maker;
    var tradeTotal := Cost(level.Price, amt);
    taker.UpdateFilled(amt, tradeTotal);
    maker.UpdateFilled(amt, tradeTotal);
    OwnTerms(taker);
    OwnTerms(maker);
    if maker.IsFinished() {
      DropFirst(level, maker.ID);
    }
    StillMatchable((taker, level), maker);
    NamesLast(result, old(result.Trades), trade);
  }

  /** A trade of so much at this price between these two. */
  predicate Records(trade: Trade, taker: Order, maker: Order, price: real, amt: real) {
    && trade.taker == taker.ID && trade.user == taker.UserID && trade.takerSide == taker.Side
    && trade.maker == maker.ID && trade.makerUser == maker.UserID && trade.symbol == taker.Symbol
    && trade.price == price && trade.amount == amt && trade.total == price * amt
  }

  lemma TradeRecords(taker: Order, maker: Order, price: real, amt: real)
    ensures Records(NewTrade(taker.Symbol, taker.View(), maker.View(), price, amt), taker, maker, price, amt)
    ensures NewTrade(taker.Symbol, taker.View(), maker.View(), price, amt).maker == maker.ID
    ensures Cost(price, amt) == price * amt
  {
  }

  lemma OwnTerms(o: Order)
    ensures var v := o.View();
      && v.symbol == o.Symbol && v.remain == o.RemainAmount && (v.IsFinished() <==> o.IsFinished())
      && v.tif == o.TimeInForce
  {
  }

  twostate lemma StillMatchable(at: (Order, PriceLevel), new maker: Order)
    requires old(Matchable(at.0, at.1)) && old(at.1.Orders) != [] && old(at.1.Orders)[0].order == maker
    requires at.0.View().Kept() && (at.0.RemainAmount > 0.0 ==> at.0.View().Open())
    requires !maker.View().IsFinished() ==> maker.View().Kept() && maker.View().CanCancel()
    requires at.1.Orders == if maker.View().IsFinished() then old(at.1.Orders)[1..] else old(at.1.Orders)
    requires forall e <- old(at.1.Orders) :: e.order != maker ==> unchanged(e.order)
    ensures Matchable(at.0, at.1)
  {
    forall e | e in at.1.Orders
      ensures e in old(at.1.Orders) && (e.order == maker ==> !maker.View().IsFinished())
    {
      var i :| 0 <= i < |at.1.Orders| && at.1.Orders[i] == e;
      assert maker.View().IsFinished() ==> e == old(at.1.Orders)[i + 1];
    }
  }

  /** The first orders of a queue are filled, with these values. */
  ghost predicate Gone(es: seq<Element>, filled: seq<Ord>)
    reads set e | e in es :: e.order
  {
    |filled| <= |es| && forall i :: 0 <= i < |filled| ==> es[i].order.View() == filled[i] && Spent(filled[i])
  }

  /** What MatchAtPriceLevel does to the taker and to a level with the queue es. */
  ghost predicate MatchedAt(taker: Order, level: PriceLevel, es: seq<Element>, f: Fills)
    reads taker, level, set e | e in es :: e.order
  {
    && taker.View() == f.taker && Gone(es, f.filled) && level.Orders == es[|f.filled|..]
    && Queue(es[|f.filled|..]) == f.rest
  }

  /** Where the loop over one level stands: of all that MatchQueue does, a part is done. */
  ghost predicate Underway(taker: Order, level: PriceLevel, es: seq<Element>, filled: seq<Ord>,
                           trades: seq<Trade>, all: Fills)
    reads taker, level, (set e | e in es :: e.order), set e | e in level.Orders :: e.order
  {
    && Apart(taker, es) && Matchable(taker, level) && Gone(es, filled) && level.Orders == es[|filled|..]
    && all == Prefixed(filled, trades, MatchQueue(taker.View(), level.Price, Queue(level.Orders)))
  }

  /** One fill, as a step of MatchQueue. */
  method FillNext(taker: Order, maker: Order, level: PriceLevel, result: TradeResult, amt: real, ghost es: seq<Element>,
                  ghost filled: seq<Ord>, ghost base: seq<Trade>, ghost trades: seq<Trade>, ghost all: Fills)
    returns (ghost filled': seq<Ord>, ghost trades': seq<Trade>)
    requires Underway(taker, level, es, filled, trades, all) && taker.RemainAmount > 0.0
    requires result.Trades == base + trades
    requires level.Orders != [] && level.Orders[0].order == maker
    requires amt == Min(taker.RemainAmount, maker.RemainAmount) > 0.0
    modifies taker, maker, level, result`Trade, result`Trades, result`MakerOrder
    ensures Underway(taker, level, es, filled', trades', all)
    ensures (forall e <- level.Orders :: e in old(level.Orders)) && level.Total == old(level.Total)
    ensures |level.Orders| < |old(level.Orders)| || (level.Orders == old(level.Orders) && taker.RemainAmount == 0.0)
    ensures result.Trades == base + trades' && NamesMaker(result)
  {
    hide *;
    UnderwayAt(taker, level, es, filled, trades, all);
    OwnTerms(taker);
    OwnTerms(maker);
    ghost var t, m, q := taker.View(), maker.View(), Queue(level.Orders);
    FillFirst(taker, maker, level, result, amt);
    AfterFill(es, filled, maker);
    trades' := trades + [NewTrade(t.symbol, t, m, level.Price, amt)];
    filled' := if maker.View().IsFinished() then filled + [maker.View()] else filled;
    StepUnderway(taker, maker, level, es, filled, trades, all, t, q, amt);
  }

  twostate lemma AfterFill(es: seq<Element>, new filled: seq<Ord>, new maker: Order)
    requires |filled| < |es| && es[|filled|].order == maker && old(Gone(es, filled))
    requires forall e <- es[..|filled|] + es[|filled|..][1..] :: unchanged(e.order)
    ensures Gone(es, filled)
    ensures var now, was := es[|filled|..], old(Queue(es[|filled|..]));
      |was| > 0 && Queue(now[1..]) == was[1..] && Queue(now) == [maker.View()] + was[1..]
  {
    GoneStays(es, filled);
    QueueAfter(es[|filled|..], maker);
  }

  lemma StepUnderway(taker: Order, maker: Order, level: PriceLevel, es: seq<Element>, filled: seq<Ord>,
                     trades: seq<Trade>,
                     all: Fills, t: Ord, q: seq<Ord>, amt: real)
    requires Apart(taker, es) && Matchable(taker, level) && |filled| < |es| && Gone(es, filled)
    requires es[|filled|].order == maker
    requires t.Open() && q != [] && q[0].Kept() && q[0].CanCancel() && amt == Min(t.remain, q[0].remain) > 0.0
    requires taker.View() == t.Fill(amt, Cost(level.Price, amt))
    requires maker.View() == q[0].Fill(amt, Cost(level.Price, amt))
    requires maker.View().IsFinished() ==> Spent(maker.View())
    requires level.Orders == if maker.View().IsFinished() then es[|filled| + 1..] else es[|filled|..]
    requires Queue(level.Orders) == if maker.View().IsFinished() then q[1..] else [maker.View()] + q[1..]
    requires all == Prefixed(filled, trades, MatchQueue(t, level.Price, q))
    ensures var filled' := if maker.View().IsFinished() then filled + [maker.View()] else filled;
      Underway(taker, level, es, filled', trades + [NewTrade(t.symbol, t, q[0], level.Price, amt)], all)
  {
    hide *;
    MatchStep(t, level.Price, q, amt);
    var f := MatchQueue(taker.View(), level.Price, Queue(level.Orders));
    var trade := NewTrade(t.symbol, t, q[0], level.Price, amt);
    if maker.View().IsFinished() {
      PrefixTwice(filled, trades, [maker.View()], [trade], f);
      OneMoreGone(es, filled, maker);
      IsUnderway(taker, level, es, filled + [maker.View()], trades + [trade], all);
    } else {
      PrefixTwice(filled, trades, [], [trade], f);
      assert filled + [] == filled;
      IsUnderway(taker, level, es, filled, trades + [trade], all);
    }
  }

  lemma OneMoreGone(es: seq<Element>, filled: seq<Ord>, maker: Order)
    requires Gone(es, filled) && |filled| < |es| && es[|filled|].order == maker && Spent(maker.View())
    ensures Gone(es, filled + [maker.View()])
  {
  }

  lemma IsUnderway(taker: Order, level: PriceLevel, es: seq<Element>, filled: seq<Ord>, trades: seq<Trade>, all: Fills)
    requires Apart(taker, es) && Matchable(taker, level) && Gone(es, filled) && |filled| <= |es|
    requires level.Orders == es[|filled|..]
    requires all == Prefixed(filled, trades, MatchQueue(taker.View(), level.Price, Queue(level.Orders)))
    ensures Underway(taker, level, es, filled, trades, all)
  {
  }

  /** Fills the taker against the queue of one level, from the front. */
  method MatchAtPriceLevel(taker: Order, level: PriceLevel, result: TradeResult) returns (empty: bool)
    requires Matchable(taker, level) && NamesMaker(result)
    modifies taker, level, result`Trade, result`Trades, result`MakerOrder, set e | e in level.Orders :: e.order
    ensures var f := old(MatchQueue(taker.View(), level.Price, Queue(level.Orders)));
      MatchedAt(taker, level, old(level.Orders), f) && result.Trades == old(result.Trades) + f.trades
    ensures level.Total == old(level.Total) && (empty <==> level.Orders == []) && NamesMaker(result)
  {
    hide *;
    ghost var es, all := level.Orders, MatchQueue(taker.View(), level.Price, Queue(level.Orders));
    ghost var filled: seq<Ord>, trades: seq<Trade> := [], [];
    StartsUnderway(taker, level, all);
    EmptyIsEmpty(level);
    while taker.RemainAmount > 0.0
      invariant Underway(taker, level, es, filled, trades, all) && forall e <- level.Orders :: e in es
      invariant result.Trades == old(result.Trades) + trades && level.Total == old(level.Total) && NamesMaker(result)
      decreases |level.Orders|, if taker.RemainAmount > 0.0 then 1 else 0
    {
      var maker := level.GetFirst();
      if maker == null {
        EndsMatched(taker, level, es, filled, trades, all);
        return true;
      }
      var matchAmount := Min(taker.RemainAmount, maker.RemainAmount);
      if matchAmount <= 0.0 {
        NothingToMatch(taker, maker);
        EndsMatched(taker, level, es, filled, trades, all);
        EmptyIsEmpty(level);
        return level.IsEmpty();
      }
      filled, trades := FillNext(taker, maker, level, result, matchAmount, es, filled, old(result.Trades), trades, all);
    }
    EndsMatched(taker, level, es, filled, trades, all);
    EmptyIsEmpty(level);
    return level.IsEmpty();
  }

  lemma EmptyIsEmpty(level: PriceLevel)
    ensures level.IsEmpty() <==> level.Orders == []
  {
  }

  lemma StartsUnderway(taker: Order, level: PriceLevel, all: Fills)
    requires Matchable(taker, level)
    requires all == MatchQueue(taker.View(), level.Price, Queue(level.Orders))
    ensures Underway(taker, level, level.Orders, [], [], all)
  {
    hide MatchQueue, Queue;
    assert level.Orders[0..] == level.Orders;
  }

  lemma NothingToMatch(taker: Order, maker: Order)
    requires Min(taker.RemainAmount, maker.RemainAmount) <= 0.0 < taker.RemainAmount
    ensures maker.RemainAmount <= 0.0
  {
  }

  lemma EndsMatched(taker: Order, level: PriceLevel, es: seq<Element>, filled: seq<Ord>, trades: seq<Trade>, all: Fills)
    requires Underway(taker, level, es, filled, trades, all)
    requires taker.RemainAmount <= 0.0 || level.Orders == [] || level.Orders[0].order.RemainAmount <= 0.0
    ensures MatchedAt(taker, level, es, all) && trades == all.trades
  {
    MatchEnds(taker.View(), level.Price, Queue(level.Orders));
    hide MatchQueue, Queue;
    assert filled + [] == filled && trades + [] == trades;
  }

  /** What the loop body finds. */
  lemma UnderwayAt(taker: Order, level: PriceLevel, es: seq<Element>, filled: seq<Ord>, trades: seq<Trade>, all: Fills)
    requires Underway(taker, level, es, filled, trades, all) && level.Orders != []
    ensures Matchable(taker, level) && level.Orders == es[|filled|..] && |filled| < |es| && Gone(es, filled)
    ensures level.Orders[0].order != taker && level.Orders[0] in es
    ensures forall e <- es[..|filled|] + level.Orders[1..] :: e.order != taker && e.order != level.Orders[0].order
    ensures Apart(taker, es) && es[|filled|].order == level.Orders[0].order
    ensures var q := Queue(level.Orders);
      q != [] && q[0].Kept() && q[0].CanCancel() && q[0] == level.Orders[0].order.View()
    ensures taker.RemainAmount > 0.0 ==> taker.View().Open()
    ensures all == Prefixed(filled, trades, MatchQueue(taker.View(), level.Price, Queue(level.Orders)))
  {
    hide MatchQueue, Queue, Gone;
    assert level.Orders[0] in level.Orders && level.Orders[0] == es[|filled|];
    forall e | e in es[..|filled|] + level.Orders[1..]
      ensures e in es && e.order != level.Orders[0].order
    {
      var i :| 0 <= i < |es| && i != |filled| && es[i] == e;
    }
  }

  twostate lemma QueueAfter(es: seq<Element>, new maker: Order)
    requires es != [] && es[0].order == maker && forall e <- es[1..] :: unchanged(e.order)
    ensures Queue(es[1..]) == old(Queue(es))[1..] && Queue(es) == [maker.View()] + old(Queue(es))[1..]
  {
    SameQueue(es[1..]);
  }

  twostate lemma GoneStays(es: seq<Element>, new filled: seq<Ord>)
    requires old(Gone(es, filled)) && forall e <- es[..|filled|] :: unchanged(e.order)
    ensures Gone(es, filled)
  {
    forall i | 0 <= i < |filled|
      ensures es[i].order.View() == filled[i]
    {
      assert es[..|filled|][i] == es[i];
    }
  }

  lemma MatchStep(t: Ord, price: real, q: seq<Ord>, amt: real)
    requires t.Open() && q != [] && q[0].Kept() && q[0].CanCancel() && amt == Min(t.remain, q[0].remain) > 0.0
    ensures var u, m := t.Fill(amt, Cost(price, amt)), q[0].Fill(amt, Cost(price, amt));
      var trade := NewTrade(t.symbol, t, q[0], price, amt);
      MatchQueue(t, price, q) ==
        if m.IsFinished() then Prefixed([m], [trade], MatchQueue(u, price, q[1..]))
        else Prefixed([], [trade], MatchQueue(u, price, [m] + q[1..]))
  {
    hide Cost;
  }

  lemma MatchEnds(t: Ord, price: real, q: seq<Ord>)
    requires t.remain <= 0.0 || q == [] || q[0].remain <= 0.0
    ensures MatchQueue(t, price, q) == Fills(t, q, [], [])
  {
  }

  // ------------------------------------------------------------------ one step against the book

  /** A taker that is not in the book and can be matched against it. */
  ghost predicate Ready(taker: Order, ob: OrderBook)
    reads taker, ob, ob.Bids, ob.Asks, ob.levels, ob.members
  {
    ob.Valid() && taker !in ob.members && taker.View().Kept() && (taker.RemainAmount > 0.0 ==> taker.View().Open())
  }

  lemma BestIsMatchable(taker: Order, ob: OrderBook, level: PriceLevel, s: Side)
    requires Ready(taker, ob) && ob.IsBest(level, s)
    ensures ob.book.Of(s) != [] && level in ob.levels && ob.Contents(s) != [] && ob.Contents(s)[0].level == level
    ensures var l := ob.book.Of(s)[0];
      && Matchable(taker, level) && Queue(level.Orders) == l.queue && level.Price == l.price && level.Total == l.total
      && (forall e <- level.Orders :: e.order in ob.members)
  {
    hide Entries, Queue, Ord.Open, Ord.Kept, Ord.CanCancel, RBTree.Valid, OrderBook.Indexed, OrderBook.AllShown;
    var l := ob.book.Of(s)[0];
    assert l in ob.book.Of(s);
    forall e | e in level.Orders
      ensures e.order in ob.members && Rests(e.order.View(), s, l.price)
    {
      var i :| 0 <= i < |level.Orders| && level.Orders[i] == e;
      assert l.queue[i] in l.queue;
    }
    forall i, j | 0 <= i < j < |level.Orders|
      ensures level.Orders[i].order != level.Orders[j].order
    {
      assert level.Orders[i] in level.Orders && level.Orders[j] in level.Orders;
    }
    RestsIsOpen(level, s);
  }

  lemma RestsIsOpen(level: PriceLevel, s: Side)
    requires forall e <- level.Orders :: Rests(e.order.View(), s, level.Price)
    ensures forall e <- level.Orders :: e.order.View().Kept() && e.order.View().CanCancel()
  {
    hide PriceLevel.View, Order.View;
  }

  /** What MatchBest leaves of the book, as the two updates that the program does. */
  lemma BestInTwoSteps(b: Book, s: Side, t: Ord)
    requires BookOk(b) && b.Of(s) != [] && t.Kept() && (t.remain > 0.0 ==> t.Open())
    ensures var ls, r := b.Of(s), MatchBest(t, b.Of(s));
      var f := MatchQueue(t, ls[0].price, ls[0].queue);
      var ls1 := ls[0 := ls[0].(queue := f.rest)];
      && BookOk(b.With(s, r.levels)) && r.taker == f.taker && r.trades == f.trades && r.filled == f.filled
      && r.taker.Kept() && (r.taker.remain > 0.0 ==> r.taker.Open()) && SameTerms(r.taker, t)
      && (f.rest != [] ==> r.levels == ls1)
      && (f.rest == [] ==> Droppable(s, ls1, ls[0].price) && b.With(s, ls1).Of(s) == ls1)
      && (f.rest == [] ==> b.With(s, r.levels) == b.With(s, ls1).With(s, DropPrice(s, ls1, ls[0].price)))
  {
    hide *;
    var ls, r := b.Of(s), MatchBest(t, b.Of(s));
    var f := MatchQueue(t, ls[0].price, ls[0].queue);
    var v := ls[0].(queue := f.rest);
    SidesAreOk(b, s);
    BestIsLeft(t, ls, s);
    StaysLeft(ls, r.levels, s);
    WithIsOk(b, s, r.levels);
    BestParts(t, ls);
    SidePlace(s, ls, 0, v);
    WithOf(b, s, ls[0 := v]);
    WithTwice(b, s, ls[0 := v], DropPrice(s, ls[0 := v], v.price));
    assert ls[0 := v] == [v] + ls[1..] && ls[0 := v][..0] + ls[0 := v][1..] == ls[1..];
  }

  /** An order that has left its queue completely filled: the index still leads to it, with this value. */
  ghost predicate IsFilled(ob: OrderBook, o: Ord)
    reads ob, ob.levels, ob.members
  {
    && o.id in ob.orders && ob.orders[o.id].Order in ob.members && ob.orders[o.id].Order.View() == o
    && !ob.IsResting(o.id)
  }

  ghost predicate AllFilled(ob: OrderBook, filled: seq<Ord>)
    reads ob, ob.levels, ob.members
  {
    forall o <- filled :: IsFilled(ob, o)
  }

  /** What has been filled before is not touched again. */
  twostate lemma StaysFilled(ob: OrderBook, new s: Side, new f: Fills, new o: Ord)
    requires old(ob.Linked()) && ob.Consumed(s, |f.filled|, f.rest) && unchanged(ob.Bids) && unchanged(ob.Asks)
    requires old(IsFilled(ob, o))
    ensures IsFilled(ob, o)
  {
    hide Entries, Queue, RBTree.Valid;
    var l, x := ob.Contents(s)[0].level, ob.orders[o.id];
    ob.PlaceShown(s, 0);
    assert old(ob.Indexed(o.id, ob.orders[o.id]));
    var es := old(l.Orders);
    assert forall e <- es :: e.order != x.Order;
    assert x.PriceLevel == l ==> x.Element !in es && x.Element !in l.Orders;
  }

  /** What has been filled just now. */
  twostate lemma NewlyFilled(ob: OrderBook, new s: Side, new f: Fills)
    requires old(ob.Linked()) && ob.Consumed(s, |f.filled|, f.rest) && unchanged(ob.Bids) && unchanged(ob.Asks)
    requires Gone(old(ob.Contents(s)[0].level.Orders), f.filled)
    ensures AllFilled(ob, f.filled)
  {
    hide Entries, Queue, RBTree.Valid;
    ob.PlaceShown(s, 0);
    var l := ob.Contents(s)[0].level;
    var es := old(l.Orders);
    forall i | 0 <= i < |f.filled|
      ensures IsFilled(ob, f.filled[i])
    {
      assert es[i] in es && es[i].order.ID == f.filled[i].id;
    }
  }

  twostate lemma FilledMore(ob: OrderBook, new s: Side, new f: Fills, new filled: seq<Ord>)
    requires old(ob.Linked()) && ob.Consumed(s, |f.filled|, f.rest) && unchanged(ob.Bids) && unchanged(ob.Asks)
    requires Gone(old(ob.Contents(s)[0].level.Orders), f.filled) && old(AllFilled(ob, filled))
    ensures AllFilled(ob, filled + f.filled)
  {
    NewlyFilled(ob, s, f);
    hide *;
    forall o | o in filled + f.filled
      ensures IsFilled(ob, o)
    {
      if o in filled {
        WasFilled(ob, filled, o);
        StaysFilled(ob, s, f, o);
      } else {
        FilledIn(ob, f.filled, o);
      }
    }
    IsAllFilled(ob, filled + f.filled);
  }

  twostate lemma WasFilled(ob: OrderBook, new filled: seq<Ord>, new o: Ord)
    requires old(AllFilled(ob, filled)) && o in filled
    ensures old(IsFilled(ob, o))
  {
  }

  lemma FilledIn(ob: OrderBook, filled: seq<Ord>, o: Ord)
    requires AllFilled(ob, filled) && o in filled
    ensures IsFilled(ob, o)
  {
  }

  lemma IsAllFilled(ob: OrderBook, filled: seq<Ord>)
    requires forall o <- filled :: IsFilled(ob, o)
    ensures AllFilled(ob, filled)
  {
  }

  /** Only trees and the book's value have changed. */
  twostate lemma SameFilled(ob: OrderBook, new filled: seq<Ord>)
    requires old(AllFilled(ob, filled))
    requires unchanged(ob`orders) && unchanged(ob`levels) && unchanged(ob`members)
    requires (forall l <- ob.levels :: unchanged(l)) && (forall o <- ob.members :: unchanged(o))
    ensures AllFilled(ob, filled)
  {
    forall o | o in filled
      ensures IsFilled(ob, o)
    {
      assert old(IsFilled(ob, o));
    }
  }

  /** The taker against the best level of the opposite side; an emptied level leaves its tree. */
  method TradeAtBest(taker: Order, ob: OrderBook, level: PriceLevel, result: TradeResult, ghost filled: seq<Ord>,
                     ghost was: Outline)
    requires ob.Within(taker.Side.Opposite(), was)
    requires Ready(taker, ob) && ob.IsBest(level, taker.Side.Opposite()) && NamesMaker(result) && AllFilled(ob, filled)
    modifies taker, result`Trade, result`Trades, result`MakerOrder, ob, ob.Bids, ob.Asks, ob.levels, ob.members
    ensures Ready(taker, ob) && ob.orders == old(ob.orders) && ob.levels == old(ob.levels)
    ensures ob.members == old(ob.members)
    ensures old(ob.book).Of(taker.Side.Opposite()) != [] && NamesMaker(result)
    ensures ob.Within(taker.Side.Opposite(), was)
    ensures var s := taker.Side.Opposite();
      var r := MatchBest(old(taker.View()), old(ob.book).Of(s));
      && taker.View() == r.taker && ob.book == old(ob.book).With(s, r.levels)
      && result.Trades == old(result.Trades) + r.trades
      && AllFilled(ob, filled + r.filled)
  {
    hide *;
    ghost var s := taker.Side.Opposite();
    ReadyParts(taker, ob);
    BestIsMatchable(taker, ob, level, s);
    BestInTwoSteps(ob.book, s, taker.View());
    ob.OneOfTheTrees(s);
    SideOfTaker(taker);
    ghost var ls, f := ob.book.Of(s), MatchQueue(taker.View(), level.Price, Queue(level.Orders));
    label Before:
    var empty := MatchAtPriceLevel(taker, level, result);
    MatchedParts(taker, level, old@Before(level.Orders), f);
    ob.book := ob.book.With(s, ls[0 := ls[0].(queue := f.rest)]);
    LevelIsConsumed@Before(ob, taker, level, s, f);
    ob.ConsumedIsLinked@Before(s, |f.filled|, f.rest);
    FilledMore@Before(ob, s, f, filled);
    ob.SameContents@Before(s);
    ob.SameContents@Before(s.Opposite());
    label Matched:
    if empty {
      ob.DeleteLevel(!taker.IsBuy(), level.Price, s);
    }
    SameFilled@Matched(ob, filled + f.filled);
    ob.IsWithin(s, was);
    IsReady(taker, ob);
  }

  lemma ReadyParts(taker: Order, ob: OrderBook)
    requires Ready(taker, ob)
    ensures ob.Valid() && ob.Linked() && BookOk(ob.book) && taker !in ob.members
    ensures taker.View().Kept() && (taker.View().remain > 0.0 ==> taker.View().Open())
  {
  }

  lemma IsReady(taker: Order, ob: OrderBook)
    requires ob.Linked() && BookOk(ob.book) && taker !in ob.members
    requires taker.View().Kept() && (taker.View().remain > 0.0 ==> taker.View().Open())
    ensures Ready(taker, ob)
  {
  }

  lemma MatchedParts(taker: Order, level: PriceLevel, es: seq<Element>, f: Fills)
    requires MatchedAt(taker, level, es, f)
    ensures taker.View() == f.taker && (level.Orders == [] <==> f.rest == []) && Gone(es, f.filled)
    ensures es == [] ==> level.Orders == []
  {
  }

  lemma SideOfTaker(taker: Order)
    ensures !taker.IsBuy() == (taker.Side.Opposite() == Buy)
  {
  }

  twostate lemma LevelIsConsumed(ob: OrderBook, new taker: Order, new level: PriceLevel, new s: Side, new f: Fills)
    requires unchanged(ob`orders) && unchanged(ob`levels) && unchanged(ob`members) && unchanged(ob.Bids)
    requires unchanged(ob.Asks)
    requires old(ob.Contents(s)) != []
    requires level == old(ob.Contents(s))[0].level && level in old(ob.levels) && level.Total == old(level.Total)
    requires forall e <- old(level.Orders) :: e.order in ob.members
    requires MatchedAt(taker, level, old(level.Orders), f)
    requires forall x <- ob.levels :: x != level ==> unchanged(x)
    requires forall o <- ob.members :: (forall e <- old(level.Orders) :: e.order != o) ==> unchanged(o)
    ensures ob.Consumed(s, |f.filled|, f.rest)
  {
    hide Entries, Queue;
  }

  // ------------------------------------------------------------------ the matchers

  function Joined(filled: seq<Ord>, trades: seq<Trade>, r: Result): Result {
    Result(r.taker, r.levels, filled + r.filled, trades + r.trades)
  }

  lemma SideStep(t: Ord, ls: seq<Level>, priced: bool, s: Side)
    requires t.Open() && ls != [] && Accepts(t, priced, ls[0].price) && SideOk(ls, s)
    ensures var r := MatchBest(t, ls);
      && MatchSide(t, ls, priced) == Joined(r.filled, r.trades, MatchSide(r.taker, r.levels, priced))
      && (|r.levels| < |ls| || (|r.levels| == |ls| && r.taker.remain == 0.0))
  {
    BestIsLeft(t, ls, s);
    hide MatchBest, SideOk;
    var r := MatchBest(t, ls);
    assert r.filled + [] == r.filled && r.trades + [] == r.trades;
  }

  lemma SideEnds(t: Ord, ls: seq<Level>, priced: bool)
    requires t.remain <= 0.0 || ls == [] || !Accepts(t, priced, ls[0].price)
    ensures MatchSide(t, ls, priced) == Result(t, ls, [], [])
  {
  }

  /** What a matcher has done to the taker and the book b. */
  ghost predicate Did(taker: Order, ob: OrderBook, trades: seq<Trade>, b: Book, r: Result)
    reads taker, ob
  {
    taker.View() == r.taker && ob.book == b.With(taker.Side.Opposite(), r.levels) && trades == r.trades
  }

  /** Where a matching loop stands: of all that MatchSide does, a part is done. */
  ghost predicate Sweeping(taker: Order, ob: OrderBook, priced: bool, b: Book, filled: seq<Ord>,
                           trades: seq<Trade>, all: Result)
    reads taker, ob, ob.Bids, ob.Asks, ob.levels, ob.members
  {
    var s := taker.Side.Opposite();
    && Ready(taker, ob) && ob.book == b.With(s, ob.book.Of(s)) && AllFilled(ob, filled)
    && all == Joined(filled, trades, MatchSide(taker.View(), ob.book.Of(s), priced))
  }

  lemma StartsSweeping(taker: Order, ob: OrderBook, priced: bool)
    requires Ready(taker, ob)
    ensures var all := MatchSide(taker.View(), ob.book.Of(taker.Side.Opposite()), priced);
      Sweeping(taker, ob, priced, ob.book, [], [], all)
  {
    hide Ready, MatchSide;
    var all := MatchSide(taker.View(), ob.book.Of(taker.Side.Opposite()), priced);
    assert [] + all.filled == all.filled && [] + all.trades == all.trades;
  }

  lemma EndsSweeping(taker: Order, ob: OrderBook, priced: bool, b: Book, filled: seq<Ord>, trades: seq<Trade>,
                     all: Result)
    requires Sweeping(taker, ob, priced, b, filled, trades, all)
    requires var ls := ob.book.Of(taker.Side.Opposite());
      taker.RemainAmount <= 0.0 || ls == [] || !Accepts(taker.View(), priced, ls[0].price)
    ensures Did(taker, ob, trades, b, all) && AllFilled(ob, all.filled) && Ready(taker, ob) && trades == all.trades
  {
    hide Ready, MatchSide;
    SideEnds(taker.View(), ob.book.Of(taker.Side.Opposite()), priced);
    assert filled + [] == filled && trades + [] == trades;
  }

  /** One round of a matching loop. */
  method TradeNext(taker: Order, ob: OrderBook, level: PriceLevel, result: TradeResult, priced: bool, ghost b: Book,
                   ghost filled: seq<Ord>, ghost all: Result, ghost was: Outline)
    returns (ghost filled': seq<Ord>)
    requires Sweeping(taker, ob, priced, b, filled, result.Trades, all) && taker.RemainAmount > 0.0
    requires ob.IsBest(level, taker.Side.Opposite()) && Accepts(taker.View(), priced, level.Price) && NamesMaker(result)
    requires ob.Within(taker.Side.Opposite(), was)
    modifies taker, result`Trade, result`Trades, result`MakerOrder, ob, ob.Bids, ob.Asks, ob.levels, ob.members
    ensures Sweeping(taker, ob, priced, b, filled', result.Trades, all) && NamesMaker(result)
    ensures ob.Within(taker.Side.Opposite(), was)
    ensures ob.orders == old(ob.orders) && ob.levels == old(ob.levels) && ob.members == old(ob.members)
    ensures var s := taker.Side.Opposite();
      |ob.book.Of(s)| < |old(ob.book).Of(s)| || (|ob.book.Of(s)| == |old(ob.book).Of(s)| && taker.RemainAmount == 0.0)
    ensures old(ob.book).Of(taker.Side.Opposite()) != []
    ensures var s := taker.Side.Opposite(); var r := MatchBest(old(taker.View()), old(ob.book).Of(s));
      && Did(taker, ob, result.Trades, old(ob.book), r.(trades := old(result.Trades) + r.trades))
      && filled' == filled + r.filled
  {
    hide *;
    ghost var s, t, ls, ts := taker.Side.Opposite(), taker.View(), ob.book.Of(taker.Side.Opposite()), result.Trades;
    SweepingParts(taker, ob, priced, b, filled, ts, all);
    BestIsMatchable(taker, ob, level, s);
    SidesAreOk(ob.book, s);
    SideStep(t, ls, priced, s);
    ghost var r := MatchBest(t, ls);
    WithTwice(b, s, ls, r.levels);
    WithOf(ob.book, s, r.levels);
    TradeAtBest(taker, ob, level, result, filled, was);
    filled' := filled + r.filled;
    KeepsSweeping(taker, ob, priced, b, filled, ts, all, r);
    HasDone(taker, ob, result.Trades, old(ob.book), r.(trades := ts + r.trades));
  }

  lemma DidTrades(taker: Order, ob: OrderBook, trades: seq<Trade>, b: Book, r: Result)
    ensures Did(taker, ob, trades, b, r) ==> trades == r.trades
  {
  }

  lemma HasDone(taker: Order, ob: OrderBook, trades: seq<Trade>, b: Book, r: Result)
    requires taker.View() == r.taker && ob.book == b.With(taker.Side.Opposite(), r.levels) && trades == r.trades
    ensures Did(taker, ob, trades, b, r)
  {
  }

  lemma SweepingParts(taker: Order, ob: OrderBook, priced: bool, b: Book, filled: seq<Ord>, trades: seq<Trade>,
                      all: Result)
    requires Sweeping(taker, ob, priced, b, filled, trades, all)
    ensures var s := taker.Side.Opposite();
      && Ready(taker, ob) && BookOk(ob.book) && ob.Linked() && ob.book == b.With(s, ob.book.Of(s))
      && AllFilled(ob, filled)
      && all == Joined(filled, trades, MatchSide(taker.View(), ob.book.Of(s), priced))
      && (taker.RemainAmount > 0.0 ==> taker.View().Open())
  {
  }

  lemma KeepsSweeping(taker: Order, ob: OrderBook, priced: bool, b: Book, filled: seq<Ord>, trades: seq<Trade>,
                      all: Result,
                      r: Result)
    requires Ready(taker, ob) && ob.book == b.With(taker.Side.Opposite(), r.levels) && AllFilled(ob, filled + r.filled)
    requires all == Joined(filled, trades, Joined(r.filled, r.trades, MatchSide(r.taker, r.levels, priced)))
    requires taker.View() == r.taker
    ensures Sweeping(taker, ob, priced, b, filled + r.filled, trades + r.trades, all)
    ensures taker.View().remain == taker.RemainAmount
  {
    hide Ready, MatchSide;
    var m := MatchSide(r.taker, r.levels, priced);
    assert filled + (r.filled + m.filled) == filled + r.filled + m.filled;
    assert trades + (r.trades + m.trades) == trades + r.trades + m.trades;
  }

  /** The best level of the side that the taker trades against. */
  method BestLevel(taker: Order, ob: OrderBook) returns (level: PriceLevel?)
    requires Ready(taker, ob)
    ensures ob.IsBest(level, taker.Side.Opposite())
    ensures var ls := ob.book.Of(taker.Side.Opposite());
      (level == null <==> ls == []) && (level != null ==> level.Price == ls[0].price)
  {
    hide *;
    ReadyParts(taker, ob);
    SideOfTaker(taker);
    if taker.IsBuy() {
      level := ob.GetBestAsk();
    } else {
      level := ob.GetBestBid();
    }
    BestPrice(ob, level, taker.Side.Opposite());
  }

  lemma BestPrice(ob: OrderBook, level: PriceLevel?, s: Side)
    requires ob.IsBest(level, s)
    ensures (level == null <==> ob.book.Of(s) == []) && (level != null ==> level.Price == ob.book.Of(s)[0].price)
  {
  }

  /** The callback with which a FOK order adds up what it believes to be available. */
  function Counting(taker: Ord): (real, Sight) -> (real, bool) {
    (found: real, s: Sight) =>
      if !Accepts(taker, true, s.key) then (found, false)
      else (found + s.level.total, taker.remain > found + s.level.total)
  }

  lemma {:induction false} ScanIsVisited(taker: Ord, ls: seq<Level>, found: real)
    ensures Visit(Counting(taker), found, Shown(ls)).0 == Scan(taker, ls, found)
  {
    if ls != [] {
      assert Shown(ls)[1..] == Shown(ls[1..]);
      ScanIsVisited(taker, ls[1..], found + ls[0].total);
    }
  }

  lemma AcceptsAt(taker: Order, price: real)
    ensures var worse := if taker.IsBuy() then taker.Price < price else taker.Price > price;
      Accepts(taker.View(), true, price) <==> !worse
    ensures Accepts(taker.View(), false, price)
  {
  }

  lemma LimitCases(t: Ord, ls: seq<Level>)
    ensures t.tif !in {FOK, IOC, GTX} ==> LimitMatch(t, ls) == MatchSide(t, ls, true)
    ensures var none := t.remain <= 0.0 || ls == [] || !Accepts(t, true, ls[0].price);
      t.tif in {IOC, GTX} ==> LimitMatch(t, ls) == if none then Result(t, ls, [], []) else MatchBest(t, ls)
    ensures var killed := Scan(t, ls, 0.0) < t.remain;
      t.tif == FOK ==> LimitMatch(t, ls) == if killed then Result(t, ls, [], []) else MatchSide(t, ls, true)
    ensures MarketMatch(t, ls) == MatchSide(t, ls, false)
  {
  }

  lemma NoTradesBefore(r: Result)
    ensures r.(trades := [] + r.trades) == r && [] + r.filled == r.filled
  {
  }

  lemma NothingDone(taker: Order, ob: OrderBook)
    ensures Did(taker, ob, [], ob.book, Result(taker.View(), ob.book.Of(taker.Side.Opposite()), [], []))
    ensures AllFilled(ob, [])
  {
  }

  lemma NoTradesYet(result: TradeResult)
    ensures result.Trades == [] ==> NamesMaker(result)
  {
  }

  class LimitMatcher {

    constructor () {}

    method Match(taker: Order, ob: OrderBook) returns (result: TradeResult)
      requires Ready(taker, ob)
      modifies taker, ob, ob.Bids, ob.Asks, ob.levels, ob.members
      ensures fresh(result) && result.TakerOrder == taker && NamesMaker(result) && Ready(taker, ob)
      ensures ob.orders == old(ob.orders) && ob.levels == old(ob.levels) && ob.members == old(ob.members)
      ensures ob.Within(taker.Side.Opposite(), old(ob.OutlineOf(taker.Side.Opposite())))
      ensures TradesFit(result.Trades, old(taker.View()), old(Flatten(ob.book.Of(taker.Side.Opposite()))), true)
      ensures var r := old(LimitMatch(taker.View(), ob.book.Of(taker.Side.Opposite())));
        Did(taker, ob, result.Trades, old(ob.book), r) && AllFilled(ob, r.filled)
    {
      hide *;
      result := new TradeResult(taker);
      NoTradesYet(result);
      if taker.TimeInForce == FOK {
        result := MatchFOK(taker, ob);
        return;
      }
      ghost var t, b, s := taker.View(), ob.book, taker.Side.Opposite();
      ghost var all := MatchSide(t, b.Of(s), true);
      ghost var filled: seq<Ord>, was := [], ob.OutlineOf(s);
      ob.StartsWithin(s);
      LimitCases(t, b.Of(s));
      ReadyParts(taker, ob);
      SidesAreOk(b, s);
      LimitTradesFit(t, b.Of(s), s);
      OwnTerms(taker);
      NothingDone(taker, ob);
      StartsSweeping(taker, ob, true);
      while taker.RemainAmount > 0.0
        invariant Sweeping(taker, ob, true, b, filled, result.Trades, all) && result.TakerOrder == taker
        invariant NamesMaker(result)
        invariant ob.orders == old(ob.orders) && ob.levels == old(ob.levels) && ob.members == old(ob.members)
        invariant ob.Within(s, was)
        invariant taker.TimeInForce in {IOC, GTX} ==>
          taker.View() == t && ob.book == b && result.Trades == [] && filled == []
        decreases |ob.book.Of(s)|, if taker.RemainAmount > 0.0 then 1 else 0
      {
        SweepingParts(taker, ob, true, b, filled, result.Trades, all);
        var bestLevel := BestLevel(taker, ob);
        if bestLevel == null {
          break;
        }
        AcceptsAt(taker, bestLevel.Price);
        if taker.IsBuy() {
          if taker.Price < bestLevel.Price {
            break;
          }
        } else {
          if taker.Price > bestLevel.Price {
            break;
          }
        }
        NoTradesBefore(MatchBest(taker.View(), ob.book.Of(s)));
        filled := TradeNext(taker, ob, bestLevel, result, true, b, filled, all, was);
        SweepingParts(taker, ob, true, b, filled, result.Trades, all);
        DidTrades(taker, ob, result.Trades, b, LimitMatch(t, b.Of(s)));
        if taker.TimeInForce == IOC {
          return;
        }
        if taker.TimeInForce == GTX {
          return;
        }
      }
      OwnTerms(taker);
      NothingDone(taker, ob);
      EndsSweeping(taker, ob, true, b, filled, result.Trades, all);
    }

    method MatchFOK(taker: Order, ob: OrderBook) returns (result: TradeResult)
      requires Ready(taker, ob) && taker.TimeInForce == FOK
      modifies taker, ob, ob.Bids, ob.Asks, ob.levels, ob.members
      ensures fresh(result) && result.TakerOrder == taker && NamesMaker(result) && Ready(taker, ob)
      ensures ob.orders == old(ob.orders) && ob.levels == old(ob.levels) && ob.members == old(ob.members)
      ensures ob.Within(taker.Side.Opposite(), old(ob.OutlineOf(taker.Side.Opposite())))
      ensures TradesFit(result.Trades, old(taker.View()), old(Flatten(ob.book.Of(taker.Side.Opposite()))), true)
      ensures var r := old(LimitMatch(taker.View(), ob.book.Of(taker.Side.Opposite())));
        Did(taker, ob, result.Trades, old(ob.book), r) && AllFilled(ob, r.filled)
    {
      hide *;
      result := new TradeResult(taker);
      NoTradesYet(result);
      ghost var t, b, s := taker.View(), ob.book, taker.Side.Opposite();
      ghost var all := MatchSide(t, b.Of(s), true);
      ghost var filled: seq<Ord>, was := [], ob.OutlineOf(s);
      ob.StartsWithin(s);
      LimitCases(t, b.Of(s));
      ReadyParts(taker, ob);
      SidesAreOk(b, s);
      LimitTradesFit(t, b.Of(s), s);
      OwnTerms(taker);
      NothingDone(taker, ob);
      StartsSweeping(taker, ob, true);
      var available := Available(taker, ob);
      if available < taker.RemainAmount {
        return;
      }
      while taker.RemainAmount > 0.0
        invariant Sweeping(taker, ob, true, b, filled, result.Trades, all) && result.TakerOrder == taker
        invariant NamesMaker(result)
        invariant ob.orders == old(ob.orders) && ob.levels == old(ob.levels) && ob.members == old(ob.members)
        invariant ob.Within(s, was)
        decreases |ob.book.Of(s)|, if taker.RemainAmount > 0.0 then 1 else 0
      {
        SweepingParts(taker, ob, true, b, filled, result.Trades, all);
        var bestLevel := BestLevel(taker, ob);
        if bestLevel == null {
          break;
        }
        AcceptsAt(taker, bestLevel.Price);
        if taker.IsBuy() && taker.Price < bestLevel.Price {
          break;
        }
        if !taker.IsBuy() && taker.Price > bestLevel.Price {
          break;
        }
        filled := TradeNext(taker, ob, bestLevel, result, true, b, filled, all, was);
      }
      EndsSweeping(taker, ob, true, b, filled, result.Trades, all);
    }

    /** Level totals of the opposite side, added up as far as the order's price reaches. */
    method Available(taker: Order, ob: OrderBook) returns (available: real)
      requires Ready(taker, ob)
      ensures available == Scan(taker.View(), ob.book.Of(taker.Side.Opposite()), 0.0)
    {
      hide *;
      ReadyParts(taker, ob);
      ghost var s := taker.Side.Opposite();
      ob.SideIsSeen(s);
      ScanIsVisited(taker.View(), ob.book.Of(s), 0.0);
      ob.BothTrees();
      SideOfTaker(taker);
      if taker.IsBuy() {
        available := ob.Asks.Ascend(Counting(taker.View()), 0.0);
      } else {
        available := ob.Bids.Ascend(Counting(taker.View()), 0.0);
      }
    }
  }

  class MarketMatcher {

    constructor () {}

    method Match(taker: Order, ob: OrderBook) returns (result: TradeResult)
      requires Ready(taker, ob)
      modifies taker, ob, ob.Bids, ob.Asks, ob.levels, ob.members
      ensures fresh(result) && result.TakerOrder == taker && NamesMaker(result) && Ready(taker, ob)
      ensures ob.orders == old(ob.orders) && ob.levels == old(ob.levels) && ob.members == old(ob.members)
      ensures ob.Within(taker.Side.Opposite(), old(ob.OutlineOf(taker.Side.Opposite())))
      ensures TradesFit(result.Trades, old(taker.View()), old(Flatten(ob.book.Of(taker.Side.Opposite()))), false)
      ensures var r := old(MarketMatch(taker.View(), ob.book.Of(taker.Side.Opposite())));
        Did(taker, ob, result.Trades, old(ob.book), r) && AllFilled(ob, r.filled)
    {
      hide *;
      result := new TradeResult(taker);
      NoTradesYet(result);
      ghost var t, b, s := taker.View(), ob.book, taker.Side.Opposite();
      ghost var all := MatchSide(t, b.Of(s), false);
      ghost var filled: seq<Ord>, was := [], ob.OutlineOf(s);
      ob.StartsWithin(s);
      LimitCases(t, b.Of(s));
      ReadyParts(taker, ob);
      SidesAreOk(b, s);
      MarketTradesFit(t, b.Of(s), s);
      StartsSweeping(taker, ob, false);
      while taker.RemainAmount > 0.0
        invariant Sweeping(taker, ob, false, b, filled, result.Trades, all) && result.TakerOrder == taker
        invariant NamesMaker(result)
        invariant ob.orders == old(ob.orders) && ob.levels == old(ob.levels) && ob.members == old(ob.members)
        invariant ob.Within(s, was)
        decreases |ob.book.Of(s)|, if taker.RemainAmount > 0.0 then 1 else 0
      {
        SweepingParts(taker, ob, false, b, filled, result.Trades, all);
        var bestLevel := BestLevel(taker, ob);
        if bestLevel == null {
          break;
        }
        AcceptsAt(taker, bestLevel.Price);
        filled := TradeNext(taker, ob, bestLevel, result, false, b, filled, all, was);
      }
      EndsSweeping(taker, ob, false, b, filled, result.Trades, all);
    }
  }
}
