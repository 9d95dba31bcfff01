/** Short runs on which the program does not do what one might expect of it. Each of them has its exact condition
    elsewhere; these runs show that the conditions can be met. */
module Witness {
  import opened Models
  import opened SortedKeys
  import opened BookSpec
  import opened MatchLaws
  import opened Runs
  import opened Uncrossed
  import opened StopOrders
  import opened Engines
  import Resume

  const SYMBOL := "BTC"

  function Offer(id: nat, price: real, amount: real): Ord { NewOrd(id, id, SYMBOL, Sell, Limit, price, amount, GTC) }

  function Bid(id: nat, price: real, amount: real, tif: TimeInForce): Ord {
    NewOrd(id, id, SYMBOL, Buy, Limit, price, amount, tif)
  }

  function Ask(o: Ord): Level { Level(o.price, [o], o.remain) }

  lemma FirstOffer(o: Ord)
    requires o.kind == Limit && o.side == Sell && o.tif == GTC && o.status == New && o.remain > 0.0
    ensures Process(Book([], []), o) == Outcome(Book([], [Ask(o)]), o, [], [], true)
  {
    assert [] + [o] == [o] && [] + [Ask(o)] + [] == [Ask(o)];
  }

  lemma SecondOffer(a: Ord, o: Ord)
    requires o.kind == Limit && o.side == Sell && o.tif == GTC && o.status == New && o.remain > 0.0 && a.price < o.price
    ensures Process(Book([], [Ask(a)]), o) == Outcome(Book([], [Ask(a), Ask(o)]), o, [], [], true)
  {
    var ls := [Ask(a)];
    assert Prices(ls) == [a.price];
    assert Prices(ls)[1..] == [];
    assert Rank(false, Prices(ls)[1..], o.price) == 0;
    assert PlaceOf(Sell, ls, o.price) == 1;
    assert ls[..1] + [Ask(o)] + ls[1..] == [Ask(a), Ask(o)];
    assert [] + [o] == [o];
  }

  lemma AfterThree(r: Run, a: Cmd, b: Cmd, c: Cmd)
    ensures After(r, [a, b, c]) == Step(Step(Step(r, a), b), c)
  {
    hide Step;
    assert [a, b, c][1..] == [b, c] && [b, c][1..] == [c];
    assert After(Step(Step(r, a), b), [c]) == After(Step(Step(Step(r, a), b), c), []);
  }

  /** A taker that uses up a level of one order. */
  lemma TakesAll(o: Ord, a: Ord)
    requires o.Open() && a.Open() && a.remain < o.remain
    ensures var f := MatchQueue(o, a.price, [a]);
      && f.rest == [] && |f.trades| == 1 && f.taker.remain == o.remain - a.remain && f.taker.Open()
      && SameTerms(f.taker, o)
  {
    hide Cost;
    assert [a][1..] == [];
  }

  lemma Shapes(id: nat, price: real, amount: real, tif: TimeInForce)
    requires amount > 0.0
    ensures var o := Offer(id, price, amount);
      && o.Fresh() && o.Open() && o.kind == Limit && o.side == Sell && o.tif == GTC && o.status == New
      && o.remain == amount && o.price == price && o.id == id
    ensures var o := Bid(id, price, amount, tif);
      && o.Fresh() && o.Open() && o.kind == Limit && o.side == Buy && o.tif == tif && o.status == New
      && o.remain == amount && o.price == price && o.id == id
  {
  }

  lemma Admits(r: Run, asks: seq<Level>, ids: set<nat>, o: Ord)
    requires r.book == Book([], asks) && r.strays == [] && o.Fresh() && o.id !in ids
    requires forall l <- asks :: forall x <- l.queue :: x.id in ids
    ensures Admissible(r, Submit(o)) && Step(r, Submit(o)).strays == []
  {
    hide Ord.Fresh, Process, Swept, FilledSpots;
  }

  lemma AdmittedThree(a: Ord, b: Ord, c: Ord)
    requires var r1 := Step(Start, Submit(a));
      Admissible(Start, Submit(a)) && Admissible(r1, Submit(b)) && Admissible(Step(r1, Submit(b)), Submit(c))
    ensures Admitted(Start, [Submit(a), Submit(b), Submit(c)])
  {
    hide *;
    var r1 := Step(Start, Submit(a));
    LogSplits(Start, Submit(a), [Submit(b), Submit(c)]);
    LogSplits(r1, Submit(b), [Submit(c)]);
    LogSplits(Step(r1, Submit(b)), Submit(c), []);
    Ends(Step(Step(r1, Submit(b)), Submit(c)));
    assert [Submit(a)] + [Submit(b), Submit(c)] == [Submit(a), Submit(b), Submit(c)];
    assert [Submit(b)] + [Submit(c)] == [Submit(b), Submit(c)] && [Submit(c)] + [] == [Submit(c)];
  }

  lemma Ends(r: Run)
    ensures After(r, []) == r && Admitted(r, []) && Careful(r, [])
  {
  }

  lemma AskHas(a: Ord)
    ensures Ask(a).queue == [a]
  {
  }

  /** An immediate-or-cancel order trades at one level only, and what is left of it rests across the next one. */
  lemma IocCrossesTheBook()
    ensures var a, b, o := Offer(1, 10.0, 1.0), Offer(2, 11.0, 1.0), Bid(3, 12.0, 5.0, IOC);
      && Admitted(Start, [Submit(a), Submit(b), Submit(o)])
      && !IsUncrossed(After(Start, [Submit(a), Submit(b), Submit(o)]).book)
  {
    hide *;
    var a, b, o := Offer(1, 10.0, 1.0), Offer(2, 11.0, 1.0), Bid(3, 12.0, 5.0, IOC);
    Shapes(1, 10.0, 1.0, GTC);
    Shapes(2, 11.0, 1.0, GTC);
    Shapes(3, 12.0, 5.0, IOC);
    AfterThree(Start, Submit(a), Submit(b), Submit(o));
    FirstOffer(a);
    SecondOffer(a, b);
    LeavesSecond(o, a, b);
    EmptyStart();
    StepIs(Start, a);
    StepIs(Step(Start, Submit(a)), b);
    StepIs(Step(Step(Start, Submit(a)), Submit(b)), o);
    AskHas(a);
    AskHas(b);
    Admits(Start, [], {}, a);
    Admits(Step(Start, Submit(a)), [Ask(a)], {1}, b);
    Admits(Step(Step(Start, Submit(a)), Submit(b)), [Ask(a), Ask(b)], {1, 2}, o);
    AdmittedThree(a, b, o);
  }

  lemma EmptyStart()
    ensures Start.book == Book([], []) && Start.strays == []
  {
  }

  lemma LeavesSecond(o: Ord, a: Ord, b: Ord)
    requires o.kind == Limit && o.tif == IOC && o.side == Buy && o.Open() && a.Open() && a.remain < o.remain
    requires b.price <= o.price && a.price <= o.price && o.price > 0.0
    ensures !IsUncrossed(Process(Book([], [Ask(a), Ask(b)]), o).book)
  {
    TakesAll(o, a);
    var ls := [Ask(a), Ask(b)];
    assert ls[1..] == [Ask(b)];
    var t := MatchQueue(o, a.price, [a]).taker;
    hide MatchQueue, Cost;
    assert Matched(o, ls).levels == [Ask(b)] && Matched(o, ls).taker == t;
    RestsAlone(t, [Ask(b)]);
  }

  lemma RestsAlone(t: Ord, asks: seq<Level>)
    requires t.side == Buy
    ensures Add(Book([], asks), t).bids == [Append(Level(t.price, [], 0.0), t)] && Add(Book([], asks), t).asks == asks
  {
    hide Append;
  }

  /** A maker that is partly filled stays, and the total of its level stays what it was. */
  lemma TakesPart(o: Ord, a: Ord)
    requires o.kind == Limit && o.side == Buy && o.tif == GTC && o.Open() && a.Open() && o.remain < a.remain
    requires a.price <= o.price
    ensures var m := a.Fill(o.remain, Cost(a.price, o.remain));
      && m.Open() && m.remain == a.remain - o.remain && SameTerms(m, a)
      && Process(Book([], [Ask(a)]), o).book == Book([], [Ask(a).(queue := [m])])
  {
    hide Cost;
    var ls := [Ask(a)];
    assert [a][1..] == [] && ls[1..] == [];
    var m := a.Fill(o.remain, Cost(a.price, o.remain));
    assert [m] + [] == [m] && [Ask(a).(queue := [m])] + [] == [Ask(a).(queue := [m])];
    assert MatchBest(o, ls).levels == [Ask(a).(queue := [m])];
    assert MatchSide(o, ls, true).levels == [Ask(a).(queue := [m])] && MatchSide(o, ls, true).taker.remain == 0.0;
  }

  /** A fill-or-kill order against one level: it goes by the level's total, whatever the queue holds. */
  lemma FokGoesByTotal(o: Ord, m: Ord, total: real)
    requires o.kind == Limit && o.side == Buy && o.tif == FOK && o.Open() && m.Open() && m.remain < o.remain
    requires m.price <= o.price
    ensures var p := Process(Book([], [Level(m.price, [m], total)]), o);
      if total < o.remain then p.trades == [] && p.taker.remain == o.remain
      else |p.trades| == 1 && p.taker.remain == o.remain - m.remain
  {
    hide Cost;
    var ls := [Level(m.price, [m], total)];
    assert [m][1..] == [] && ls[1..] == [];
    assert Scan(o, ls, 0.0) == total;
    var f := MatchQueue(o, m.price, [m]);
    TakesAll(o, m);
    var r := MatchBest(o, ls);
    assert r.levels == [] && r.trades == f.trades && r.taker == f.taker;
    assert MatchSide(r.taker, [], true) == Result(r.taker, [], [], []) && Accepts(o, true, ls[0].price);
    var all := MatchSide(o, ls, true);
    assert all.taker == r.taker && all.trades == r.trades + [];
    assert Matched(o, ls) == if total < o.remain then Result(o, ls, [], []) else all;
    hide Add;
  }

  /** A fill-or-kill order that is filled partly, because a level's total has drifted; on a book restored from the
      orders of the same one it is killed instead. */
  lemma FokIsFilledPartly()
    ensures var a, b, o := Offer(1, 10.0, 10.0), Bid(2, 10.0, 9.0, GTC), Bid(3, 10.0, 5.0, FOK);
      var book := After(Start, [Submit(a), Submit(b)]).book;
      && Admitted(Start, [Submit(a), Submit(b), Submit(o)])
      && Process(book, o).taker.remain == 4.0
      && Process(Resume.AddAll(Book([], []), Resume.AllOrders(book)), o).taker.remain == 5.0
  {
    hide *;
    var a, b, o := Offer(1, 10.0, 10.0), Bid(2, 10.0, 9.0, GTC), Bid(3, 10.0, 5.0, FOK);
    Shapes(1, 10.0, 10.0, GTC);
    Shapes(2, 10.0, 9.0, GTC);
    Shapes(3, 10.0, 5.0, FOK);
    FirstOffer(a);
    TakesPart(b, a);
    AfterTwo(Start, Submit(a), Submit(b));
    EmptyStart();
    StepIs(Start, a);
    StepIs(Step(Start, Submit(a)), b);
    var m := a.Fill(b.remain, Cost(a.price, b.remain));
    AskIs(a, m);
    AskHas(a);
    Admits(Start, [], {}, a);
    Admits(Step(Start, Submit(a)), [Ask(a)], {1}, b);
    Admits(Step(Step(Start, Submit(a)), Submit(b)), [Ask(a).(queue := [m])], {1}, o);
    AdmittedThree(a, b, o);
    FokGoesByTotal(o, m, 10.0);
    FokGoesByTotal(o, m, 1.0);
    RestoredAlone(m, 10.0);
  }

  lemma AfterTwo(r: Run, a: Cmd, b: Cmd)
    ensures After(r, [a, b]) == Step(Step(r, a), b)
  {
    hide Step;
    assert [a, b][1..] == [b];
    assert After(Step(r, a), [b]) == After(Step(Step(r, a), b), []);
  }

  lemma AskIs(a: Ord, m: Ord)
    ensures Ask(a).(queue := [m]) == Level(a.price, [m], a.remain)
    ensures SameTerms(m, a) ==> m.price == a.price && m.kind == a.kind && m.side == a.side && m.id == a.id
  {
  }

  lemma RestoredAlone(m: Ord, total: real)
    requires m.kind == Limit && m.side == Sell && m.Open()
    ensures var b := Book([], [Level(m.price, [m], total)]);
      Resume.AddAll(Book([], []), Resume.AllOrders(b)) == Book([], [Level(m.price, [m], m.remain)])
  {
    var b := Book([], [Level(m.price, [m], total)]);
    assert [b.asks[0]][1..] == [] && [m] + [] == [m] && [] + [m] == [m];
    assert Resume.AllOrders(b) == [m];
    assert [m][1..] == [];
    assert [] + [Level(m.price, [m], m.remain)] + [] == [Level(m.price, [m], m.remain)];
    assert Add(Book([], []), m) == Book([], [Level(m.price, [m], m.remain)]);
  }

  // ------------------------------------------------------------------ cancelling an order that has been filled

  /** An order that is filled completely by one of its own size and price. */
  lemma TakesExactly(o: Ord, a: Ord)
    requires o.kind == Limit && o.side == Buy && o.tif == GTC && o.Fresh() && o.Open() && a.Open()
    requires o.remain == a.remain && a.price == o.price
    ensures var p, m := Process(Book([], [Ask(a)]), o), a.Fill(o.remain, Cost(a.price, o.remain));
      && p.book == Book([], []) && p.filled == [m] && !p.rests && SameTerms(m, a) && SameTerms(p.taker, o)
  {
    hide Cost;
    var ls := [Ask(a)];
    assert [a][1..] == [] && ls[1..] == [];
    var m := a.Fill(o.remain, Cost(a.price, o.remain));
    assert [m] + [] == [m];
    var f, t := MatchQueue(o, a.price, [a]), o.Fill(o.remain, Cost(a.price, o.remain));
    assert m.status == Filled && t.remain == 0.0 && MatchQueue(t, a.price, []) == Fills(t, [], [], []);
    assert f.rest == [] && f.filled == [m] && f.taker.remain == 0.0;
    assert MatchBest(o, ls).levels == [];
    assert MatchSide(f.taker, [], true) == Result(f.taker, [], [], []);
    assert MatchSide(o, ls, true).levels == [] && MatchSide(o, ls, true).filled == [m];
  }

  lemma OneSpent(r: Run, o: Ord, m: Ord, a: Ord)
    requires r == Run(r.book, [], r.trades, map[], []) && SameTerms(m, a) && o.side == Buy && a.side == Sell
    requires var p := Process(r.book, o);
      p.filled == [m] && p.book == Book([], []) && !p.rests && SameTerms(p.taker, o)
    ensures var r' := Step(r, Submit(o));
      && r'.book == Book([], []) && r'.strays == [] && r'.spent == map[a.id := Spot(Sell, a.price, Gone)]
      && |r'.done| == 2 && r'.done[0].id == a.id && r'.done[1].id == o.id
  {
    hide Process;
    var p := Process(r.book, o);
    assert HasId([m], a.id) && forall id :: HasId([m], id) ==> id == a.id;
    assert FilledSpots([m]) == map[a.id := Spot(Sell, a.price, Standing)];
    assert !HasPrice(Sell, [], a.price);
    assert Swept(map[] + FilledSpots([m]), Sell, []) == map[a.id := Spot(Sell, a.price, Gone)];
  }

  /** An order rests where an order that the index still knows was filled. */
  lemma RestsAgain(r: Run, c: Ord, spot: Spot, id: nat)
    requires r.book == Book([], []) && r.strays == [] && r.spent == map[id := spot] && spot.side == Sell && c.id != id
    requires c.side == Sell && Process(r.book, c) == Outcome(Book([], [Ask(c)]), c, [], [], true)
    ensures var r' := Step(r, Submit(c));
      && r'.book == Book([], [Ask(c)]) && r'.strays == [] && r'.spent == r.spent && r'.done == r.done
  {
    hide Process;
    assert r.done + [] + [] == r.done;
    assert r.spent + FilledSpots([]) - {c.id} == r.spent;
    assert Swept(r.spent, Buy, []) == r.spent;
  }

  /** The order of another one is gone from the book when the filled one is cancelled. */
  lemma CancelDrops(r: Run, c: Ord, id: nat)
    requires r.book == Book([], [Ask(c)]) && r.strays == [] && c.id != id
    requires r.spent == map[id := Spot(Sell, c.price, Gone)]
    ensures !Harmless(r, Withdraw(id)) && Admissible(r, Withdraw(id))
    ensures var r' := Step(r, Withdraw(id)); r'.book == Book([], []) && r'.strays == [Ask(c)] && r'.done == r.done
  {
    assert HasPrice(Sell, [Ask(c)], c.price);
    assert !SideHas([], id) && !SideHas([Ask(c)], id);
    assert [] + [Ask(c)] == [Ask(c)] && [Ask(c)][..0] + [Ask(c)][1..] == [];
  }

  /** Sell orders 1 and 3 at the same price, the first of which is filled before the other comes: cancelling order 1
      takes order 3 out of the book, and no cancel of order 3 is on record. */
  lemma CancelLosesAnOrder()
    ensures var a, b, c := Offer(1, 10.0, 1.0), Bid(2, 10.0, 1.0, GTC), Offer(3, 10.0, 1.0);
      var log := [Submit(a), Submit(b), Submit(c), Withdraw(1)];
      var r1 := Step(Start, Submit(a));
      var r2 := Step(r1, Submit(b));
      var r3 := Step(r2, Submit(c));
      && Admitted(Start, log) && !Careful(Start, log) && After(Start, log) == Step(r3, Withdraw(1))
      && Admissible(Start, Submit(a)) && Admissible(r1, Submit(b)) && Admissible(r2, Submit(c))
      && !Harmless(r3, Withdraw(1)) && Process(r2.book, c).rests && c.id == 3
      && After(Start, log).book == Book([], []) && forall o <- After(Start, log).done :: o.id != 3
  {
    hide *;
    var a, b, c := Offer(1, 10.0, 1.0), Bid(2, 10.0, 1.0, GTC), Offer(3, 10.0, 1.0);
    var m := a.Fill(b.remain, Cost(a.price, b.remain));
    var r1 := Step(Start, Submit(a));
    var r2 := Step(r1, Submit(b));
    var r3 := Step(r2, Submit(c));
    Shapes(1, 10.0, 1.0, GTC);
    Shapes(2, 10.0, 1.0, GTC);
    Shapes(3, 10.0, 1.0, GTC);
    EmptyStart();
    FirstOffer(a);
    FirstStep(a);
    TakesExactly(b, a);
    OneSpent(r1, b, m, a);
    FirstOffer(c);
    RestsAgain(r2, c, Spot(Sell, 10.0, Gone), 1);
    CancelDrops(r3, c, 1);
    AskHas(a);
    Admits(Start, [], {}, a);
    Admits(r1, [Ask(a)], {1}, b);
    Admits(r2, [], {}, c);
    FourSteps(Submit(a), Submit(b), Submit(c), Withdraw(1));
  }

  lemma FirstStep(a: Ord)
    requires Process(Start.book, a) == Outcome(Book([], [Ask(a)]), a, [], [], true) && a.side == Sell
    ensures Step(Start, Submit(a)) == Run(Book([], [Ask(a)]), [], [], map[], [])
  {
    hide Process;
    assert map[] + FilledSpots([]) - {a.id} == map[];
    assert Swept(map[], Buy, []) == map[];
  }

  lemma FourSteps(a: Cmd, b: Cmd, c: Cmd, d: Cmd)
    ensures var log := [a, b, c, d];
      var r1 := Step(Start, a);
      var r2 := Step(r1, b);
      var r3 := Step(r2, c);
      && After(Start, log) == Step(r3, d)
      && (Admitted(Start, log) <==> Admissible(Start, a) && Admissible(r1, b) && Admissible(r2, c) && Admissible(r3, d))
      && (Careful(Start, log) <==> Harmless(Start, a) && Harmless(r1, b) && Harmless(r2, c) && Harmless(r3, d))
  {
    hide *;
    var r1 := Step(Start, a);
    var r2 := Step(r1, b);
    LogSplits(Start, a, [b, c, d]);
    LogSplits(r1, b, [c, d]);
    LogSplits(r2, c, [d]);
    LogSplits(Step(r2, c), d, []);
    Ends(Step(Step(r2, c), d));
    assert [a] + [b, c, d] == [a, b, c, d] && [b] + [c, d] == [b, c, d] && [c] + [d] == [c, d] && [d] + [] == [d];
  }

  method SubmitTo(me: MarketEngine, v: Ord)
    requires me.Valid() && Admissible(me.run, Submit(v)) && v.Fresh()
    modifies me`lastPrice, me`run, me.OrderBook, me.OrderBook.Bids, me.OrderBook.Asks, me.OrderBook.levels,
      me.OrderBook.members
    ensures me.Valid() && me.run == Step(old(me.run), Submit(v)) && me.OrderBook == old(me.OrderBook)
    ensures fresh(me.OrderBook.levels - old(me.OrderBook.levels))
    ensures fresh(me.OrderBook.members - old(me.OrderBook.members))
    ensures Process(old(me.run.book), v).rests ==> v.id in me.OrderBook.orders
  {
    hide *;
    me.EngineValidIff();
    me.OrderBook.BookIsOk();
    me.OrderBook.FindsAll();
    SubmitIsAdmissible(me.run, me.OrderBook, v);
    var order := new Order(v);
    OwnView(order);
    ViewIs(v, order);
    ghost var trades := me.ProcessOrder(order);
  }

  lemma ViewIs(v: Ord, order: Order)
    ensures order.View() == v ==> order.ID == v.id
  {
  }

  /** The same run on the program's objects: after the cancel of order 1 the index knows order 3, but no tree has it. */
  method CancelBreaksABook() returns (me: MarketEngine)
    ensures fresh(me) && !me.Valid() && me.OrderBook.book == Book([], []) && 3 in me.OrderBook.orders
  {
    hide *;
    CancelLosesAnOrder();
    Shapes(1, 10.0, 1.0, GTC);
    Shapes(2, 10.0, 1.0, GTC);
    Shapes(3, 10.0, 1.0, GTC);
    me := new MarketEngine(SYMBOL);
    SubmitTo(me, Offer(1, 10.0, 1.0));
    SubmitTo(me, Bid(2, 10.0, 1.0, GTC));
    me.EngineValidIff();
    SubmitTo(me, Offer(3, 10.0, 1.0));
    var gone := me.CancelOrder(1);
  }

  // ------------------------------------------------------------------ stop orders

  /** Two stop orders at one price: taking them out makes the program shorten a list of one price by two. */
  method TwoStopsPanic() returns (t: StopOrderTree, panics: bool)
    ensures fresh(t) && panics && !t.Valid()
  {
    hide *;
    t := new StopOrderTree(true);
    var a := new StopOrder(1, 10.0);
    var b := new StopOrder(2, 10.0);
    t.Insert(10.0, a);
    t.Insert(10.0, b);
    t.Parts();
    BothJoined(a, b);
    PairHas(a, b);
    OnePrice(t.prices, t.orders, a, b);
    ghost var orders := t.orders;
    var result: seq<StopOrder>;
    result, panics := t.GetOrdersBelowPrice(10.0);
    BothTaken(orders, a, b, result);
  }

  function Pair(a: StopOrder, b: StopOrder): map<real, Group> { map[10.0 := map[1 := a, 2 := b]] }

  lemma PairHas(a: StopOrder, b: StopOrder)
    ensures forall o <- Members(Pair(a, b)) :: o == a || o == b
  {
  }

  lemma BothJoined(a: StopOrder, b: StopOrder)
    requires a.ID == 1 && b.ID == 2
    ensures var none: map<real, Group> := map[];
      var one := none[10.0 := Joined(GroupAt(none, 10.0), a)];
      one[10.0 := Joined(GroupAt(one, 10.0), b)] == Pair(a, b)
  {
  }

  lemma OnePrice(ps: seq<real>, orders: map<real, Group>, a: StopOrder, b: StopOrder)
    requires Sorted(false, ps) && (forall p :: p in ps <==> p in orders) && orders == Pair(a, b)
    ensures ps == [10.0]
  {
    assert |ps| > 1 ==> Before(false, ps[0], ps[1]);
    assert 10.0 in ps && forall i :: 0 <= i < |ps| ==> ps[i] in ps;
  }

  lemma BothTaken(orders: map<real, Group>, a: StopOrder, b: StopOrder, result: seq<StopOrder>)
    requires orders == Pair(a, b)
    ensures [10.0][..Leading([10.0], 10.0)] == [10.0] && !Singles(orders, [10.0])
    ensures Extracted(result, orders, [10.0]) ==> |result| == 2
  {
    assert [10.0][1..] == [] && Leading([10.0], 10.0) == 1;
    assert |map[1 := a, 2 := b]| == 2;
    assert GroupAt(orders, 10.0) == map[1 := a, 2 := b] && 10.0 in [10.0];
    assert Count(orders, [10.0]) == 2 + Count(orders, []);
  }
}
