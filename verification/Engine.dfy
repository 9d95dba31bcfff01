/** The engine of one market: what it does with an order, and a whole log of them. */
module Engines {
  import opened Models
  import opened BookSpec
  import opened MatchLaws
  import opened Runs
  import opened OrderBooks
  import opened Matchers

  /** After a match: the last price is that of the last trade, which is the price of the last order traded with and the
      worst price that the match traded at; without trades it is what it was. */
  ghost predicate NotesLast(price: real, before: real, ts: seq<Trade>, taker: Side, flat: seq<Ord>) {
    var n := |ts|;
    && (n == 0 ==> price == before)
    && (n > 0 ==> n <= |flat| && price == ts[n - 1].price && price == flat[n - 1].price)
    && (n > 0 ==> forall t <- ts :: if taker == Buy then t.price <= price else t.price >= price)
  }

  lemma LastIsNoted(price: real, before: real, ts: seq<Trade>, o: Ord, levels: seq<Level>, priced: bool)
    requires SideOk(levels, o.side.Opposite()) && TradesFit(ts, o, Flatten(levels), priced)
    requires price == if ts == [] then before else ts[|ts| - 1].price
    ensures NotesLast(price, before, ts, o.side, Flatten(levels))
  {
    if ts != [] { LastIsWorst(ts, o, levels, o.side.Opposite(), priced); }
  }

  lemma NothingNoted(price: real, side: Side, flat: seq<Ord>)
    ensures NotesLast(price, price, [], side, flat)
  {
  }

  /** What the market engine does in each of its cases is what Process says. */
  lemma ProcessCases(b: Book, o: Ord)
    ensures var s, p := o.side.Opposite(), Process(b, o);
      var r := Matched(o, b.Of(s));
      && p.filled == r.filled && p.trades == r.trades
      && (o.kind == Limit ==> r == LimitMatch(o, b.Of(s))) && (o.kind == Market ==> r == MarketMatch(o, b.Of(s)))
      && p.book == (if GoesToBook(r.taker) then Add(b.With(s, r.levels), r.taker) else b.With(s, r.levels))
      && p.rests == GoesToBook(r.taker)
      && p.taker == Settled(r.taker)
      && (o.kind in {StopLimit, StopMarket, UnknownType} ==>
           p.book == b && p.filled == [] && p.trades == [] && !p.rests && r.levels == b.Of(s))
      && (o.kind in {StopLimit, StopMarket} ==> p.taker == o)
      && (o.kind == UnknownType ==> p.taker == o.(status := Rejected))
  {
    hide LimitMatch, MarketMatch, Add;
  }

  lemma SettledCases(t: Ord)
    ensures t.kind == Limit ==> Settled(t) == t && (GoesToBook(t) <==> t.remain > 0.0 && !t.IsFinished())
    ensures t.kind == Market ==> !GoesToBook(t)
    ensures var open := t.remain > 0.0 && !t.IsFinished();
      t.kind == Market ==> Settled(t) == if open then t.(status := Cancelled) else t
  {
  }

  lemma OwnView(o: Order)
    ensures o.View() == Ord(o.ID, o.UserID, o.Symbol, o.Side, o.Type, o.TimeInForce, o.Price, o.Amount, o.Status,
                            o.FilledAmount, o.RemainAmount, o.FilledTotal)
  {
  }

  lemma DidParts(taker: Order, ob: OrderBook, trades: seq<Trade>, b: Book, r: Result)
    requires Did(taker, ob, trades, b, r)
    ensures taker.View() == r.taker && ob.book == b.With(taker.Side.Opposite(), r.levels) && trades == r.trades
  {
  }

  lemma FilledOrders(ob: OrderBook, filled: seq<Ord>)
    requires AllFilled(ob, filled)
    ensures forall o <- filled :: o.id in ob.orders && ob.orders[o.id].Order in ob.members
  {
  }

  /** What has been filled stays known while an order comes to rest under another ID. */
  twostate lemma KeepsFilled(ob: OrderBook, new filled: seq<Ord>, new other: nat)
    requires old(AllFilled(ob, filled)) && old(ob.members) <= ob.members && !HasId(filled, other)
    requires forall id <- old(ob.orders) :: id != other ==> id in ob.orders && ob.orders[id] == old(ob.orders[id])
    requires forall id <- old(ob.orders) :: id != other ==> (ob.IsResting(id) <==> old(ob.IsResting(id)))
    requires forall o <- old(ob.members) :: unchanged(o)
    ensures AllFilled(ob, filled)
  {
    forall o | o in filled
      ensures IsFilled(ob, o)
    {
      assert old(IsFilled(ob, o));
    }
  }

  /** What a match makes of the filled orders that the index knows: those just filled have come to them. */
  twostate lemma MatchSpots(ob: OrderBook, new s: Side, new o: Ord, new r: Result)
    requires old(ob.Valid() && ob.AllHoused() && ob.RestsAreFound()) && ob.Valid() && ob.RestsAreFound() && o.Fresh()
    requires ob.Within(s, old(ob.OutlineOf(s))) && ob.levels == old(ob.levels) && ob.orders == old(ob.orders)
    requires s == o.side.Opposite() && r == Matched(o, old(ob.book).Of(s))
    requires ob.book == old(ob.book).With(s, r.levels) && AllFilled(ob, r.filled)
    ensures ob.Spots() == Swept(old(ob.Spots()) + FilledSpots(r.filled), s, r.levels)
    ensures forall id <- ob.orders :: ob.IsResting(id) ==> old(ob.IsResting(id))
    ensures forall id: nat :: HasId(r.filled, id) ==> old(ob.IsResting(id))
  {
    hide *;
    WasOk(ob, s);
    WithOf(old(ob.book), s, r.levels);
    forall id: nat
      ensures SideHas(old(ob.book).Of(s), id) <==> SideHas(r.levels, id) || HasId(r.filled, id)
    {
      MatchedIds(o, old(ob.book).Of(s), s, id);
    }
    FoundBefore(ob, s, r);
    forall id: nat | HasId(r.filled, id)
      ensures old(ob.IsResting(id))
    {
      OnSide(ob, s, id);
    }
    FilledAre(ob, s, o, r);
    NothingTaken(ob);
    ob.SpotsAfter(s, r.levels, r.filled, {});
  }

  twostate lemma WasOk(ob: OrderBook, new s: Side)
    requires old(ob.Valid())
    ensures SideOk(old(ob.book).Of(s), s)
  {
  }

  twostate lemma OnSide(ob: OrderBook, new s: Side, new id: nat)
    requires old(ob.RestsAreFound()) && SideHas(old(ob.book).Of(s), id)
    ensures old(ob.IsResting(id))
  {
    hide SideHas, OrderBook.IsResting;
  }

  twostate lemma FoundBefore(ob: OrderBook, new s: Side, new r: Result)
    requires old(ob.RestsAreFound()) && ob.RestsAreFound() && ob.book == old(ob.book).With(s, r.levels)
    requires forall id: nat :: SideHas(old(ob.book).Of(s), id) <==> SideHas(r.levels, id) || HasId(r.filled, id)
    ensures forall id <- ob.orders :: ob.IsResting(id) ==> old(ob.IsResting(id))
    ensures forall id <- ob.orders :: !ob.IsResting(id) && old(ob.IsResting(id)) ==> HasId(r.filled, id)
  {
    hide SideHas, OrderBook.IsResting, HasId;
  }

  twostate lemma FilledAre(ob: OrderBook, new s: Side, new o: Ord, new r: Result)
    requires AllFilled(ob, r.filled) && ob.orders == old(ob.orders)
    requires SideOk(old(ob.book).Of(s), s) && o.Fresh() && s == o.side.Opposite() && r == Matched(o, old(ob.book).Of(s))
    requires forall id: nat :: HasId(r.filled, id) ==> old(ob.IsResting(id))
    ensures ob.Filling(s, r.filled)
  {
    FilledOnSide(o, old(ob.book).Of(s), s);
    hide Matched, SideOk, OrderBook.IsResting, Ord.Fresh;
    forall x | x in r.filled
      ensures ob.orders.Keys == old(ob.orders.Keys) && IsFilled(ob, x) && x.side == s && old(ob.IsResting(x.id))
    {
      assert HasId(r.filled, x.id);
    }
  }

  twostate lemma NothingTaken(ob: OrderBook)
    requires ob.orders == old(ob.orders)
    ensures ob.orders == old(ob.orders) - {}
  {
  }

  lemma NoneFilled(ob: OrderBook)
    ensures AllFilled(ob, [])
  {
  }

  lemma TradesOrNot(result: TradeResult)
    ensures result.HasTrade() <==> result.Trades != []
  {
  }

  /** After the matcher: the terms of the order are what they were, and what remains of it may rest. */
  lemma TakerRests(taker: Order, ob: OrderBook)
    requires Ready(taker, ob)
    ensures var v := taker.View();
      && v.kind == taker.Type && v.remain == taker.RemainAmount && (v.IsFinished() <==> taker.IsFinished())
      && (v.kind == Limit && v.remain > 0.0 ==> Rests(v, taker.Side, taker.Price))
    ensures ob.Valid() && taker !in ob.members
  {
  }

  lemma FreshIsReady(taker: Order, ob: OrderBook)
    requires ob.Valid() && taker !in ob.members && taker.View().Fresh()
    ensures Ready(taker, ob)
  {
    FreshIsFair(taker.View());
    hide OrderBook.Valid, Fair;
  }

  lemma StepKeeps(r: Run, c: Cmd)
    requires Admissible(r, c)
    ensures Inv(r) ==> Inv(Step(r, c))
  {
    hide *;
    if Inv(r) { StepKeepsInvariant(r, c); }
  }

  lemma WithdrawIsAdmissible(r: Run, id: nat)
    ensures Admissible(r, Withdraw(id))
  {
  }

  /** What a submission makes of the filled orders that the index knows, in the order in which it happens. */
  lemma AcceptParts(r: Run, o: Ord)
    requires BookOk(r.book) && o.Fresh()
    ensures var s, p, r' := o.side.Opposite(), Process(r.book, o), Step(r, Submit(o));
      var swept := Swept(r.spent + FilledSpots(p.filled), s, Matched(o, r.book.Of(s)).levels);
      r'.spent == (if p.rests then swept - {o.id} else swept) && r'.strays == r.strays && r'.book == p.book
  {
    var s, p := o.side.Opposite(), Process(r.book, o);
    SidesOf(r.book, o.side);
    MatchedValues(o, r.book.Of(s), s);
    hide Matched, AddTo, FilledSpots, GoesToBook, Settled;
    assert p.book.Of(s) == Matched(o, r.book.Of(s)).levels;
    SweptMinus(r.spent + FilledSpots(p.filled), o.id, s, p.book.Of(s));
  }

  lemma SweptMinus(spots: map<nat, Spot>, id: nat, s: Side, ls: seq<Level>)
    ensures Swept(spots - {id}, s, ls) == Swept(spots, s, ls) - {id}
  {
  }

  /** The orders of a log as they are at the moment, as submissions. */
  ghost function Submissions(log: seq<Order>): (cs: seq<Cmd>)
    reads set o | o in log
    ensures |cs| == |log| && forall i :: 0 <= i < |log| ==> cs[i] == Submit(log[i].View())
  {
    if log == [] then [] else [Submit(log[0].View())] + Submissions(log[1..])
  }

  lemma {:induction false} AfterOneMore(r: Run, log: seq<Cmd>, c: Cmd)
    ensures After(r, log + [c]) == Step(After(r, log), c)
    decreases |log|
  {
    hide Step;
    if log == [] {
      assert After(r, [c]) == After(Step(r, c), []);
    } else {
      assert (log + [c])[1..] == log[1..] + [c];
      AfterOneMore(Step(r, log[0]), log[1..], c);
    }
  }

  lemma {:induction false} AdmittedOneMore(r: Run, log: seq<Cmd>, c: Cmd)
    ensures Admitted(r, log + [c]) <==> Admitted(r, log) && Admissible(After(r, log), c)
    decreases |log|
  {
    hide Step, Admissible;
    if log == [] {
      assert [] + [c] == [c] && Admitted(Step(r, c), []);
    } else {
      assert (log + [c])[1..] == log[1..] + [c];
      AdmittedOneMore(Step(r, log[0]), log[1..], c);
    }
  }

  /** Orders that can be put through a book one after the other. */
  ghost predicate Unseen(log: seq<Order>, ob: OrderBook)
    reads ob, ob.levels, set o | o in log
  {
    && (forall o <- log :: o.View().Fresh() && o !in ob.members && !ob.IsResting(o.ID))
    && (forall i, j :: 0 <= i < j < |log| ==> log[i] != log[j] && log[i].ID != log[j].ID)
  }

  lemma AfterNone(r: Run)
    ensures After(r, []) == r && Admitted(r, [])
  {
  }

  lemma NextIsUnseen(log: seq<Order>, i: nat, ob: OrderBook)
    requires i < |log| && Unseen(log[i..], ob)
    ensures var o := log[i]; o.View().Fresh() && o !in ob.members && !ob.IsResting(o.ID)
    ensures log[i] in log[i..]
    ensures forall o <- log[i + 1..] :: o in log[i..] && o != log[i] && o.ID != log[i].ID && o !in ob.members
  {
    hide Ord.Fresh, OrderBook.IsResting;
    assert log[i..][0] == log[i];
    forall o | o in log[i + 1..]
      ensures o in log[i..] && o != log[i] && o.ID != log[i].ID && o !in ob.members
    {
      var j :| 0 <= j < |log[i + 1..]| && log[i + 1..][j] == o;
      assert log[i..][j + 1] == o;
    }
  }

  twostate lemma RestIsUnseen(log: seq<Order>, new i: nat, new ob: OrderBook)
    requires i < |log| && old(allocated(ob)) && old(Unseen(log[i..], ob))
    requires forall o <- log[i + 1..] :: unchanged(o) && o != log[i] && o.ID != log[i].ID
    requires ob.members <= old(ob.members) + {log[i]}
    requires forall o <- log[i + 1..] :: ob.IsResting(o.ID) ==> old(ob.IsResting(o.ID)) || o.ID == log[i].ID
    ensures Unseen(log[i + 1..], ob)
  {
    hide Ord.Fresh, OrderBook.IsResting;
    assert log[i + 1..] == log[i..][1..];
  }

  lemma OnItsSide(r: Run, id: nat, s: Side)
    requires SideHas(r.book.Of(s), id) && !SideHas(r.book.Of(s.Opposite()), id)
    ensures s == Sell ==> !SideHas(r.book.bids, id)
    ensures Cancel(r.book, id) == r.book.With(s, CancelIn(r.book.Of(s), id))
  {
  }

  /** What a run knows of a book: its value, and the filled orders that the index keeps. No level is stray. */
  ghost predicate Tells(r: Run, ob: OrderBook)
    reads ob, ob.levels
  {
    r.book == ob.book && r.spent == ob.Spots() && r.strays == []
  }

  lemma SubmitIsAdmissible(r: Run, ob: OrderBook, o: Ord)
    requires Tells(r, ob) && ob.RestsAreFound() && o.Fresh()
    ensures Admissible(r, Submit(o)) <==> !ob.IsResting(o.id)
  {
    hide OrderBook.IsResting, Ord.Fresh;
    assert !SideHas([], o.id);
  }

  /** A cancel of an order that rests. */
  lemma StepTakesOut(r: Run, id: nat, s: Side)
    requires SideHas(r.book.Of(s), id) && !SideHas(r.book.Of(s.Opposite()), id) && id !in r.spent && r.strays == []
    ensures var r', left := Step(r, Withdraw(id)), CancelIn(r.book.Of(s), id);
      && r'.book == Cancel(r.book, id) && r'.book.Of(s) == left && r'.spent == Swept(r.spent, s, left)
      && r'.strays == []
    ensures Harmless(r, Withdraw(id))
  {
    hide CancelIn, SideHas, Swept, HasPrice;
    OnItsSide(r, id, s);
    assert r.spent - {id} == r.spent;
  }

  twostate lemma TookOut(ob: OrderBook, new r: Run, new id: nat, new s: Side)
    requires old(ob.IsResting(id) && Tells(r, ob))
    requires ob.book == Cancel(old(ob.book), id) && ob.Spots() == Swept(old(ob.Spots()), s, ob.book.Of(s))
    requires old(SideHas(ob.book.Of(s), id) && !SideHas(ob.book.Of(s.Opposite()), id))
    ensures Tells(Step(r, Withdraw(id)), ob) && Harmless(r, Withdraw(id)) && Step(r, Withdraw(id)).book == ob.book
  {
    hide *;
    NotSpent(ob, id);
    Told(ob, r);
    StepTakesOut(r, id, s);
    TellsOf(Step(r, Withdraw(id)), ob);
  }

  twostate lemma Told(ob: OrderBook, new r: Run)
    requires old(Tells(r, ob))
    ensures r.book == old(ob.book) && r.spent == old(ob.Spots()) && r.strays == []
  {
  }

  twostate lemma NotSpent(ob: OrderBook, new id: nat)
    requires old(ob.IsResting(id))
    ensures id !in old(ob.Spots())
  {
  }

  /** A cancel of an order that has been filled, as a step of the run: the run still tells of the book exactly if the
      cancel is harmless. */
  twostate lemma Forgot(ob: OrderBook, new r: Run, new id: nat)
    requires old(ob.Linked() && id in ob.orders && !ob.IsResting(id) && Tells(r, ob))
    requires old(!SideHas(ob.book.bids, id) && !SideHas(ob.book.asks, id)) && ob.Spots() == old(ob.Spots()) - {id}
    requires var x := old(ob.SpotOf(id)); var ls := old(ob.book).Of(x.side);
      ob.book == if x.home.Standing? then old(ob.book) else old(ob.book).With(x.side, DropPrice(x.side, ls, x.price))
    ensures var r' := Step(r, Withdraw(id));
      && r'.book == ob.book && (Tells(r', ob) <==> Harmless(r, Withdraw(id)))
      && (Harmless(r, Withdraw(id)) <==> old(ob.HarmlessToForget(id)))
  {
    hide SideHas, OrderBook.Linked, OrderBook.IsResting, HasPrice, PlaceOf, OrderBook.SpotOf;
    ASpot(ob, id);
    var x := old(ob.SpotOf(id));
    NobodyAstray(id);
    assert r.spent[id] == x && r.strays == [];
    LostParts(ForgetSpent(r, id), x.side, x.price);
    NotThere(x.side, old(ob.book), x.price);
  }

  lemma NotThere(s: Side, b: Book, price: real)
    ensures !HasPrice(s, b.Of(s), price) ==> b.With(s, DropPrice(s, b.Of(s), price)) == b
  {
  }

  lemma NobodyAstray(id: nat)
    ensures !SideHas([], id)
  {
  }

  twostate lemma ASpot(ob: OrderBook, new id: nat)
    requires old(id in ob.orders && !ob.IsResting(id))
    ensures id in old(ob.Spots()) && old(ob.Spots())[id] == old(ob.SpotOf(id))
    ensures old(ob.SpotOf(id)).home in {Standing, Gone}
  {
  }

  /** A cancel under an unknown ID, as a step of the run. */
  lemma StepUnknown(r: Run, ob: OrderBook, id: nat)
    requires Tells(r, ob) && id !in ob.orders && !SideHas(ob.book.bids, id) && !SideHas(ob.book.asks, id)
    ensures Step(r, Withdraw(id)) == r && Harmless(r, Withdraw(id))
  {
    hide SideHas;
    NobodyAstray(id);
    assert id !in ob.Spots();
  }

  class MarketEngine {
    var OrderBook: OrderBook
    const limitMatcher: LimitMatcher
    const marketMatcher: MarketMatcher
    var lastPrice: real

    ghost var run: Run   // everything that has happened in this market

    ghost predicate Valid()
      reads this, OrderBook, OrderBook.Bids, OrderBook.Asks, OrderBook.levels, OrderBook.members
    {
      OrderBook.Valid() && Tells(run, OrderBook)
    }

    constructor (symbol: string)
      ensures Valid() && run == Start && lastPrice == 0.0 && fresh(OrderBook)
      ensures OrderBook.orders == map[] && OrderBook.members == {} && OrderBook.levels == {}
      ensures fresh(OrderBook.Bids) && fresh(OrderBook.Asks)
    {
      OrderBook := new OrderBook(symbol);
      limitMatcher := new LimitMatcher();
      marketMatcher := new MarketMatcher();
      lastPrice, run := 0.0, Start;
      new;
      StartsEmpty(OrderBook);
    }

    lemma EngineValidIff()
      ensures Valid() <==> OrderBook.Valid() && Tells(run, OrderBook)
      ensures Tells(run, OrderBook) ==> run.book == OrderBook.book
    {
    }

    method ProcessTrades(result: TradeResult)
      modifies this`lastPrice
      ensures result.Trades != [] ==> lastPrice == result.Trades[|result.Trades| - 1].price
      ensures result.Trades == [] ==> lastPrice == old(lastPrice)
    {
      for i := 0 to |result.Trades|
        invariant lastPrice == if i == 0 then old(lastPrice) else result.Trades[i - 1].price
      {
        lastPrice := result.Trades[i].price;
      }
    }

    /** One submitted order: match it, then rest or cancel what is left. */
    method ProcessOrder(order: Order) returns (ghost trades: seq<Trade>)
      requires Valid() && order.View().Fresh() && order !in OrderBook.members && !OrderBook.IsResting(order.ID)
      modifies this`lastPrice, this`run, order, OrderBook, OrderBook.Bids, OrderBook.Asks, OrderBook.levels,
        OrderBook.members
      ensures Valid() && run == Step(old(run), Submit(old(order.View()))) && (Inv(old(run)) ==> Inv(run))
      ensures Admissible(old(run), Submit(old(order.View())))
      ensures order.View() == Process(old(run.book), old(order.View())).taker
      ensures AllFilled(OrderBook, Process(old(run.book), old(order.View())).filled)
      ensures trades == Process(old(run.book), old(order.View())).trades
      ensures trades != [] ==> lastPrice == trades[|trades| - 1].price
      ensures trades == [] ==> lastPrice == old(lastPrice)
      ensures NotesLast(lastPrice, old(lastPrice), trades, order.Side, old(Flatten(run.book.Of(order.Side.Opposite()))))
      ensures fresh(OrderBook.levels - old(OrderBook.levels)) && OrderBook.members <= old(OrderBook.members) + {order}
      ensures var rests := Process(old(run.book), old(order.View())).rests;
        OrderBook.orders.Keys == old(OrderBook.orders.Keys) + if rests then {order.ID} else {}
      ensures forall id <- old(OrderBook.orders) ::
        id in OrderBook.orders && (id != order.ID ==> OrderBook.orders[id] == old(OrderBook.orders[id]))
      ensures forall id <- OrderBook.orders ::
        OrderBook.IsResting(id) ==> old(OrderBook.IsResting(id)) || id == order.ID
    {
      hide *;
      ghost var o, b, r := order.View(), OrderBook.book, run;
      EngineValidIff();
      OrderBook.BookIsOk();
      OrderBook.FindsAll();
      FreshIsReady(order, OrderBook);
      ProcessCases(b, o);
      OwnView(order);
      SubmitIsAdmissible(r, OrderBook, o);
      AcceptParts(r, o);
      StepKeeps(r, Submit(o));
      NothingNoted(lastPrice, order.Side, Flatten(r.book.Of(order.Side.Opposite())));
      TellsOf(r, OrderBook);
      OrderBook.SweptAlready(o.side.Opposite());
      NothingMore(r.spent);
      match order.Type {
        case StopLimit =>
          trades := [];
        case StopMarket =>
          trades := [];
        case UnknownType =>
          order.Status := Rejected;
          OwnView(order);
          trades := [];
        case _ =>
          trades := MatchOrder(order);
          OrderBook.RestingAreIndexed();
          Settle(order, o, b);
      }
      run := Step(r, Submit(o));
      TellsOf(run, OrderBook);
      EngineValidIff();
      NoneFilled(OrderBook);
    }

    /** Matches a limit or market order, and takes note of its trades. */
    method MatchOrder(order: Order) returns (ghost trades: seq<Trade>)
      requires Ready(order, OrderBook) && order.View().Fresh() && order.Type in {Limit, Market}
      modifies this`lastPrice, order, OrderBook, OrderBook.Bids, OrderBook.Asks, OrderBook.levels, OrderBook.members
      ensures Ready(order, OrderBook)
      ensures trades != [] ==> lastPrice == trades[|trades| - 1].price
      ensures trades == [] ==> lastPrice == old(lastPrice)
      ensures var flat := old(Flatten(OrderBook.book.Of(order.Side.Opposite())));
        TradesFit(trades, old(order.View()), flat, order.Type == Limit) &&
        NotesLast(lastPrice, old(lastPrice), trades, order.Side, flat)
      ensures var s := order.Side.Opposite();
        var r := old(Matched(order.View(), OrderBook.book.Of(s)));
        && AllFilled(OrderBook, r.filled) && order.View() == r.taker && trades == r.trades
        && OrderBook.book == old(OrderBook.book).With(s, r.levels)
        && OrderBook.Spots() == Swept(old(OrderBook.Spots()) + FilledSpots(r.filled), s, r.levels)
        && (forall id: nat :: HasId(r.filled, id) ==> old(OrderBook.IsResting(id)))
      ensures OrderBook.orders == old(OrderBook.orders) && OrderBook.levels == old(OrderBook.levels)
      ensures OrderBook.members == old(OrderBook.members)
      ensures forall id <- OrderBook.orders :: OrderBook.IsResting(id) ==> old(OrderBook.IsResting(id))
    {
      hide *;
      ghost var o, b := order.View(), OrderBook.book;
      ProcessCases(b, o);
      OwnView(order);
      ReadyParts(order, OrderBook);
      OrderBook.ValidIsHoused();
      OrderBook.FindsAll();
      var result: TradeResult;
      if order.Type == Limit {
        result := limitMatcher.Match(order, OrderBook);
      } else {
        result := marketMatcher.Match(order, OrderBook);
      }
      DidParts(order, OrderBook, result.Trades, b, Matched(o, b.Of(o.side.Opposite())));
      ReadyParts(order, OrderBook);
      OrderBook.FindsAll();
      MatchSpots(OrderBook, o.side.Opposite(), o, Matched(o, b.Of(o.side.Opposite())));
      trades := result.Trades;
      TradesOrNot(result);
      if result.HasTrade() {
        ProcessTrades(result);
      }
      SidesAreOk(b, o.side.Opposite());
      LastIsNoted(lastPrice, old(lastPrice), trades, o, b.Of(o.side.Opposite()), order.Type == Limit);
    }

    /** The remainder of an order that has been matched rests, or is cancelled. */
    method Settle(order: Order, ghost o: Ord, ghost b: Book)
      requires Ready(order, OrderBook) && !OrderBook.IsResting(order.ID) && o.kind == order.Type
      requires o.kind in {Limit, Market}
      requires var r := Matched(o, b.Of(o.side.Opposite()));
        && order.View() == r.taker && OrderBook.book == b.With(o.side.Opposite(), r.levels)
        && AllFilled(OrderBook, r.filled)
        && !HasId(r.filled, order.ID)
      modifies order, OrderBook, OrderBook.Bids, OrderBook.Asks, OrderBook.levels
      ensures OrderBook.Valid() && OrderBook.book == Process(b, o).book && order.View() == Process(b, o).taker
      ensures AllFilled(OrderBook, Process(b, o).filled)
      ensures fresh(OrderBook.levels - old(OrderBook.levels)) && OrderBook.members <= old(OrderBook.members) + {order}
      ensures OrderBook.orders.Keys == old(OrderBook.orders.Keys) + if Process(b, o).rests then {order.ID} else {}
      ensures forall id <- old(OrderBook.orders) ::
        id in OrderBook.orders && (id != order.ID ==> OrderBook.orders[id] == old(OrderBook.orders[id]))
      ensures forall id <- OrderBook.orders ::
        OrderBook.IsResting(id) ==> old(OrderBook.IsResting(id)) || id == order.ID
      ensures var spots := old(OrderBook.Spots());
        OrderBook.Spots() == if Process(b, o).rests then spots - {order.ID} else spots
    {
      hide *;
      ProcessCases(b, o);
      TakerRests(order, OrderBook);
      SettledCases(order.View());
      OwnView(order);
      ghost var filled := Process(b, o).filled;
      FilledOrders(OrderBook, filled);
      if order.RemainAmount > 0.0 && !order.IsFinished() {
        if order.Type == Market {
          order.Status := Cancelled;
        } else {
          OrderBook.AddOrder(order);
        }
      }
      KeepsFilled(OrderBook, filled, order.ID);
      OwnView(order);
    }

    /** A whole log, order by order. */
    method ProcessOrders(log: seq<Order>)
      requires Valid() && Unseen(log, OrderBook)
      modifies this`lastPrice, this`run, OrderBook, OrderBook.Bids, OrderBook.Asks, OrderBook.levels, OrderBook.members,
        set o | o in log
      ensures Valid() && run == After(old(run), old(Submissions(log))) && (Inv(old(run)) ==> Inv(run))
      ensures Admitted(old(run), old(Submissions(log)))
    {
      hide *;
      ghost var cs := Submissions(log);
      AfterNone(run);
      assert cs[..0] == [] && log[0..] == log;
      for i := 0 to |log|
        invariant Valid() && run == After(old(run), cs[..i]) && (Inv(old(run)) ==> Inv(run))
        invariant Admitted(old(run), cs[..i])
        invariant Unseen(log[i..], OrderBook) && forall o <- log[i..] :: unchanged(o)
        invariant fresh(OrderBook.levels - old(OrderBook.levels))
        invariant forall o <- OrderBook.members :: o in old(OrderBook.members) || o in log
      {
        AfterOneMore(old(run), cs[..i], cs[i]);
        AdmittedOneMore(old(run), cs[..i], cs[i]);
        NextIsUnseen(log, i, OrderBook);
        assert cs[..i + 1] == cs[..i] + [cs[i]];
        label Before:
        ghost var trades := ProcessOrder(log[i]);
        OrderBook.RestingAreIndexed();
        RestIsUnseen@Before(log, i, OrderBook);
      }
      assert cs[..|log|] == cs;
    }

    /** Cancels by ID, whatever the ID: one step of the run, after which the parts of the book agree exactly if the step
        was harmless. */
    method CancelOrder(orderID: nat) returns (order: Order?)
      requires Valid()
      modifies this`run, OrderBook, OrderBook.Bids, OrderBook.Asks, OrderBook.levels, OrderBook.members
      ensures order == if orderID in old(OrderBook.orders) then old(OrderBook.orders[orderID].Order) else null
      ensures OrderBook.orders == old(OrderBook.orders) - {orderID} && OrderBook.levels == old(OrderBook.levels)
      ensures OrderBook.members == old(OrderBook.members)
      ensures order != null ==> order.View() == old(OrderBook.orders[orderID].Order.View()).(status := Cancelled)
      ensures run == Step(old(run), Withdraw(orderID)) && OrderBook.book == run.book && (Inv(old(run)) ==> Inv(run))
      ensures Valid() <==> Harmless(old(run), Withdraw(orderID))
    {
      hide *;
      EngineValidIff();
      OrderBook.BookIsOk();
      OrderBook.RestingIsIndexed(orderID);
      OrderBook.EntryIsMember(orderID);
      ghost var resting, r := OrderBook.IsResting(orderID), run;
      TellsOf(r, OrderBook);
      if resting {
        OrderBook.RestingIsFound(orderID);
      } else {
        OrderBook.NoneRests(orderID);
      }
      WithdrawIsAdmissible(r, orderID);
      StepKeeps(r, Withdraw(orderID));
      if orderID !in OrderBook.orders { StepUnknown(r, OrderBook, orderID); }
      order := OrderBook.RemoveOrder(orderID);
      run := Step(r, Withdraw(orderID));
      EngineValidIff();
      if order == null {
        TellsOf(run, OrderBook);
        return;
      }
      if resting {
        TookOut(OrderBook, r, orderID, order.Side);
      } else {
        Forgot(OrderBook, r, orderID);
      }
      OrderBook.ValidIff();
      OwnView(order);
      label Removed:
      order.Status := Cancelled;
      OwnView(order);
      OrderBook.OutsideStatus@Removed(order);
      OrderBook.OutsideChange@Removed(order);
      OrderBook.ValidIff();
      EngineValidIff();
    }
  }

  lemma TellsOf(r: Run, ob: OrderBook)
    ensures Tells(r, ob) <==> r.book == ob.book && r.spent == ob.Spots() && r.strays == []
  {
  }

  lemma StartsEmpty(ob: OrderBook)
    requires ob.book == Book([], []) && ob.orders == map[]
    ensures Tells(Start, ob)
  {
  }
}
