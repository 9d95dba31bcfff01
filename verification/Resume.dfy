/** The replicated state machine on values: applying a log, taking a snapshot, restoring it, and why a resumed run
    cannot be told from an uninterrupted one. */
module Resume {
  import opened Models
  import opened SortedKeys
  import opened BookSpec
  import opened MatchLaws
  import opened LimitLaws
  import opened BookLaws
  import opened Runs
  import opened Uncrossed

  datatype Snapshot = Snapshot(orders: map<string, seq<Ord>>, sequence: nat)

  datatype Entry = OrderEntry(o: Ord) | SnapshotEntry(snapshot: Snapshot)

  datatype Node = Node(books: map<string, Book>, sequence: nat)

  /** What a state machine answers, and what it makes known about the order. */
  datatype Reply = Applied(sequence: nat, taker: Ord, filled: seq<Ord>, trades: seq<Trade>) | NoMarket | Restored

  const UINT64 := 0x1_0000_0000_0000_0000

  function Next(sequence: nat): nat { (sequence + 1) % UINT64 }

  function AddAll(b: Book, os: seq<Ord>): Book
    decreases |os|
  {
    if os == [] then b else AddAll(Add(b, os[0]), os[1..])
  }

  function AllOrders(b: Book): seq<Ord> { Flatten(b.bids) + Flatten(b.asks) }

  function TakeSnapshot(n: Node): Snapshot {
    Snapshot(map symbol | symbol in n.books :: AllOrders(n.books[symbol]), n.sequence)
  }

  /** Every known market starts from an empty book and gets its orders back one by one; unknown markets are skipped. */
  function Restore(n: Node, s: Snapshot): Node {
    var books := map symbol | symbol in n.books ::
      AddAll(Book([], []), if symbol in s.orders then s.orders[symbol] else []);
    Node(books, s.sequence)
  }

  function Apply(n: Node, e: Entry): (Node, Reply) {
    match e
    case OrderEntry(o) =>
      if o.symbol !in n.books then (n, NoMarket)
      else
        var p := Process(n.books[o.symbol], o);
        (Node(n.books[o.symbol := p.book], Next(n.sequence)), Applied(Next(n.sequence), p.taker, p.filled, p.trades))
    case SnapshotEntry(s) => (Restore(n, s), Restored)
  }

  function ApplyAll(n: Node, log: seq<Entry>): (Node, seq<Reply>)
    decreases |log|
  {
    if log == [] then (n, [])
    else
      var (m, r) := Apply(n, log[0]);
      var (l, rs) := ApplyAll(m, log[1..]);
      (l, [r] + rs)
  }

  // ------------------------------------------------------------------ what a log may hold

  predicate HasOrder(b: Book, id: nat) { SideHas(b.bids, id) || SideHas(b.asks, id) }

  /** Orders as a snapshot holds them: each may rest, and no ID occurs twice. */
  predicate Restorable(os: seq<Ord>) { (forall o <- os :: Rests(o, o.side, o.price)) && Scattered(os) }

  predicate Scattered(os: seq<Ord>) { forall i, j :: 0 <= i < j < |os| ==> os[i].id != os[j].id }

  /** An unfilled order under an ID that nobody at rest in its market has, or a snapshot that can be restored. */
  predicate Takes(n: Node, e: Entry) {
    match e
    case OrderEntry(o) => o.Fresh() && (o.symbol in n.books ==> !HasOrder(n.books[o.symbol], o.id))
    case SnapshotEntry(s) => forall symbol <- s.orders :: symbol in n.books ==> Restorable(s.orders[symbol])
  }

  predicate TakesAll(n: Node, log: seq<Entry>)
    decreases |log|
  {
    log == [] || (Takes(n, log[0]) && TakesAll(Apply(n, log[0]).0, log[1..]))
  }

  // ------------------------------------------------------------------ nodes that agree on all queues

  predicate SameQueue(a: Level, b: Level) { a.price == b.price && a.queue == b.queue }

  ghost predicate SameQueues(a: seq<Level>, b: seq<Level>) {
    |a| == |b| && forall i :: 0 <= i < |a| ==> SameQueue(a[i], b[i])
  }

  ghost predicate AlikeBooks(a: Book, b: Book) { SameQueues(a.bids, b.bids) && SameQueues(a.asks, b.asks) }

  ghost predicate Alike(a: Node, b: Node) {
    && a.books.Keys == b.books.Keys && a.sequence == b.sequence
    && forall symbol <- a.books :: AlikeBooks(a.books[symbol], b.books[symbol])
  }

  ghost predicate NodeOk(n: Node) { forall symbol <- n.books :: BookOk(n.books[symbol]) }

  /** Orders whose matching never looks at level totals. */
  predicate Steady(e: Entry) { e.OrderEntry? && e.o.Fresh() && !(e.o.kind == Limit && e.o.tif == FOK) }

  ghost predicate SameResult(a: Result, b: Result) {
    a.taker == b.taker && a.filled == b.filled && a.trades == b.trades && SameQueues(a.levels, b.levels)
  }

  lemma BestAlike(o: Ord, a: seq<Level>, b: seq<Level>)
    requires SameQueues(a, b) && a != []
    ensures SameResult(MatchBest(o, a), MatchBest(o, b))
  {
    assert SameQueue(a[0], b[0]);
    hide MatchQueue;
  }

  lemma {:induction false} SideAlike(o: Ord, a: seq<Level>, b: seq<Level>, priced: bool)
    requires SameQueues(a, b)
    ensures SameResult(MatchSide(o, a, priced), MatchSide(o, b, priced))
    decreases |a|
  {
    if o.remain > 0.0 && a != [] {
      assert SameQueue(a[0], b[0]);
      BestAlike(o, a, b);
      var r := MatchBest(o, a);
      if |r.levels| < |a| { SideAlike(r.taker, r.levels, MatchBest(o, b).levels, priced); }
    }
  }

  lemma MatchedAlike(o: Ord, a: seq<Level>, b: seq<Level>)
    requires SameQueues(a, b) && !(o.kind == Limit && o.tif == FOK)
    ensures SameResult(Matched(o, a), Matched(o, b))
  {
    SideAlike(o, a, b, o.kind == Limit);
    if a != [] {
      assert SameQueue(a[0], b[0]);
      BestAlike(o, a, b);
    }
    hide MatchBest, MatchSide, SameQueues;
  }

  lemma AddAlike(s: Side, a: seq<Level>, b: seq<Level>, o: Ord)
    requires SameQueues(a, b)
    ensures SameQueues(AddTo(s, a, o), AddTo(s, b, o))
  {
    var k := PlaceOf(s, a, o.price);
    SamePlace(s, a, b, o.price);
    hide PlaceOf, HasPrice;
    assert k < |a| ==> SameQueue(a[k], b[k]);
  }

  lemma SamePlace(s: Side, a: seq<Level>, b: seq<Level>, price: real)
    requires SameQueues(a, b)
    ensures PlaceOf(s, a, price) == PlaceOf(s, b, price) <= |a|
    ensures HasPrice(s, a, price) <==> HasPrice(s, b, price)
    ensures HasPrice(s, a, price) ==> PlaceOf(s, a, price) < |a|
  {
    assert forall i :: 0 <= i < |a| ==> SameQueue(a[i], b[i]);
    assert Prices(a) == Prices(b);
  }

  lemma ProcessAlike(a: Book, b: Book, o: Ord)
    requires AlikeBooks(a, b) && !(o.kind == Limit && o.tif == FOK)
    ensures var p, q := Process(a, o), Process(b, o);
      AlikeBooks(p.book, q.book) && p.taker == q.taker && p.filled == q.filled && p.trades == q.trades
  {
    var s := o.side.Opposite();
    MatchedAlike(o, a.Of(s), b.Of(s));
    OutcomeAlike(a, b, o);
  }

  lemma ProcessIsOk(b: Book, o: Ord)
    requires BookOk(b) && o.Fresh()
    ensures BookOk(Process(b, o).book)
  {
    var s := o.side.Opposite();
    var levels := b.Of(s);
    var m := Matched(o, levels);
    FreshIsFair(o);
    MatchedIsGreedy(o, levels, s);
    MatchedIsKept(o, levels, s);
    hide Matched, Greedy, Reach, Ord.Fresh;
    if GoesToBook(m.taker) { AddIsOk(o.side, b.Of(o.side), m.taker); }
  }

  lemma MatchedIsKept(o: Ord, levels: seq<Level>, s: Side)
    requires SideOk(levels, s) && o.Fresh()
    ensures Matched(o, levels).taker.Kept() && SameTerms(Matched(o, levels).taker, o)
  {
    hide *;
    FreshIsFair(o);
    TakerAfter(o, levels);
    SideIsLeft(o, levels, o.kind == Limit, s);
    if levels != [] { BestIsLeft(o, levels, s); }
  }

  lemma TakerAfter(o: Ord, levels: seq<Level>)
    ensures var t := Matched(o, levels).taker;
      t == o || t == MatchSide(o, levels, o.kind == Limit).taker || (levels != [] && t == MatchBest(o, levels).taker)
    ensures SameTerms(o, o)
  {
    hide MatchSide, MatchBest, Scan, Accepts;
  }

  // ------------------------------------------------------------------ fill or kill

  predicate Killed(o: Ord, levels: seq<Level>) { Scan(o, levels, 0.0) < o.remain }

  ghost predicate SameOutcome(p: Outcome, q: Outcome) {
    AlikeBooks(p.book, q.book) && p.taker == q.taker && p.filled == q.filled && p.trades == q.trades
  }

  lemma FokMatches(o: Ord, levels: seq<Level>)
    requires o.kind == Limit && o.tif == FOK
    ensures Matched(o, levels) == if Killed(o, levels) then Result(o, levels, [], []) else MatchSide(o, levels, true)
  {
  }

  /** A FOK order for which books with the same queues decide alike is answered alike. */
  lemma FokDecidedAlike(a: Book, b: Book, o: Ord)
    requires AlikeBooks(a, b) && o.kind == Limit && o.tif == FOK
    requires Killed(o, a.Of(o.side.Opposite())) == Killed(o, b.Of(o.side.Opposite()))
    ensures SameOutcome(Process(a, o), Process(b, o))
  {
    var s := o.side.Opposite();
    FokMatches(o, a.Of(s));
    FokMatches(o, b.Of(s));
    SideAlike(o, a.Of(s), b.Of(s), true);
    OutcomeAlike(a, b, o);
  }

  lemma OutcomeAlike(a: Book, b: Book, o: Ord)
    requires AlikeBooks(a, b) && SameResult(Matched(o, a.Of(o.side.Opposite())), Matched(o, b.Of(o.side.Opposite())))
    ensures SameOutcome(Process(a, o), Process(b, o))
  {
    var s := o.side.Opposite();
    var m, l := Matched(o, a.Of(s)), Matched(o, b.Of(s));
    hide Matched, AddTo, SameQueues;
    AddAlike(m.taker.side, a.With(s, m.levels).Of(m.taker.side), b.With(s, l.levels).Of(m.taker.side), m.taker);
  }

  /** Exactly when a FOK order does not tell two books with the same queues apart: both decide the same about it, or
      nothing crosses anyway. */
  lemma FokAlikeIff(a: Book, b: Book, o: Ord)
    requires AlikeBooks(a, b) && BookOk(a) && BookOk(b) && o.Fresh() && o.remain > 0.0 && o.kind == Limit
    requires o.tif == FOK
    ensures var s := o.side.Opposite();
      SameOutcome(Process(a, o), Process(b, o)) <==> Killed(o, a.Of(s)) == Killed(o, b.Of(s)) || Clear(o, a.Of(s))
    ensures SameOutcome(Process(a, o), Process(b, o)) || Process(a, o).trades != Process(b, o).trades
  {
    var s := o.side.Opposite();
    var las, lbs := a.Of(s), b.Of(s);
    FokMatches(o, las);
    FokMatches(o, lbs);
    SameClear(o, las, lbs);
    hide Process, AlikeBooks, Matched, Clear, Killed, MatchSide, SideOk;
    if Killed(o, las) == Killed(o, lbs) {
      FokDecidedAlike(a, b, o);
    } else if Clear(o, las) {
      NothingToFill(o, las);
      NothingToFill(o, lbs);
      UntouchedAlike(a, b, o);
    } else {
      BooksOk(a, b, s);
      SomethingTrades(o, las, s);
      SomethingTrades(o, lbs, s);
      TradesOf(a, o);
      TradesOf(b, o);
    }
  }

  lemma SameClear(o: Ord, las: seq<Level>, lbs: seq<Level>)
    ensures SameQueues(las, lbs) ==> (Clear(o, las) <==> Clear(o, lbs))
  {
    if SameQueues(las, lbs) && las != [] { assert SameQueue(las[0], lbs[0]); }
  }

  lemma NothingToFill(o: Ord, levels: seq<Level>)
    requires Clear(o, levels)
    ensures MatchSide(o, levels, true) == Result(o, levels, [], [])
  {
  }

  lemma UntouchedAlike(a: Book, b: Book, o: Ord)
    requires AlikeBooks(a, b)
    requires var s := o.side.Opposite();
      Matched(o, a.Of(s)) == Result(o, a.Of(s), [], []) && Matched(o, b.Of(s)) == Result(o, b.Of(s), [], [])
    ensures SameOutcome(Process(a, o), Process(b, o))
  {
    hide Process, Matched, SameQueues;
    OutcomeAlike(a, b, o);
  }

  lemma BooksOk(a: Book, b: Book, s: Side)
    requires BookOk(a) && BookOk(b)
    ensures SideOk(a.Of(s), s) && SideOk(b.Of(s), s)
  {
  }

  /** If something crosses, a fresh order trades. */
  lemma SomethingTrades(o: Ord, levels: seq<Level>, s: Side)
    requires SideOk(levels, s) && o.Fresh() && o.remain > 0.0 && !Clear(o, levels)
    ensures MatchSide(o, levels, true).trades != []
  {
    assert levels[0] in levels && levels[0].queue[0] in levels[0].queue;
    var f := MatchQueue(o, levels[0].price, levels[0].queue);
    assert f.trades != [];
  }

  lemma TradesOf(b: Book, o: Ord)
    ensures Process(b, o).trades == Matched(o, b.Of(o.side.Opposite())).trades
  {
    hide Matched;
  }

  // ------------------------------------------------------------------ logs with fill or kill orders

  predicate IsSubmission(e: Entry) { e.OrderEntry? && e.o.Fresh() }

  /** Two markets decide the same about an order, or nothing crosses anyway. Only FOK orders can tell. */
  predicate DecidedAlike(a: Book, b: Book, o: Ord) {
    o.kind == Limit && o.tif == FOK && o.remain > 0.0 ==>
      var s := o.side.Opposite(); Killed(o, a.Of(s)) == Killed(o, b.Of(s)) || Clear(o, a.Of(s))
  }

  /** Two nodes decide alike about every FOK order of a log when its turn comes. */
  predicate DecideAlike(a: Node, b: Node, log: seq<Entry>)
    decreases |log|
  {
    log == [] ||
    (var e := log[0];
     && (e.OrderEntry? && e.o.symbol in a.books && e.o.symbol in b.books ==>
          DecidedAlike(a.books[e.o.symbol], b.books[e.o.symbol], e.o))
     && DecideAlike(Apply(a, e).0, Apply(b, e).0, log[1..]))
  }

  lemma EmptyFokAlike(a: Book, b: Book, o: Ord)
    requires AlikeBooks(a, b) && o.remain <= 0.0 && o.kind == Limit && o.tif == FOK
    ensures SameOutcome(Process(a, o), Process(b, o))
  {
    var s := o.side.Opposite();
    FokMatches(o, a.Of(s));
    FokMatches(o, b.Of(s));
    UntouchedAlike(a, b, o);
  }

  /** Exactly when an order does not tell two markets with the same queues apart. */
  lemma OutcomeAlikeIff(a: Book, b: Book, o: Ord)
    requires AlikeBooks(a, b) && BookOk(a) && BookOk(b) && o.Fresh()
    ensures SameOutcome(Process(a, o), Process(b, o)) <==> DecidedAlike(a, b, o)
    ensures SameOutcome(Process(a, o), Process(b, o)) || Process(a, o).trades != Process(b, o).trades
  {
    hide AlikeBooks, BookOk, Process, Clear, Killed, Ord.Fresh;
    if o.kind == Limit && o.tif == FOK {
      if o.remain > 0.0 { FokAlikeIff(a, b, o); } else { EmptyFokAlike(a, b, o); }
    } else {
      ProcessAlike(a, b, o);
    }
  }

  lemma AlikeIsOk(a: Node, b: Node)
    requires Alike(a, b) && NodeOk(a)
    ensures NodeOk(b)
  {
    forall symbol | symbol in b.books
      ensures BookOk(b.books[symbol])
    {
      assert BookOk(a.books[symbol]) && AlikeBooks(a.books[symbol], b.books[symbol]);
      QueuesAreOk(a.books[symbol].bids, b.books[symbol].bids, Buy);
      QueuesAreOk(a.books[symbol].asks, b.books[symbol].asks, Sell);
    }
  }

  lemma QueuesAreOk(a: seq<Level>, b: seq<Level>, s: Side)
    requires SameQueues(a, b) && SideOk(a, s)
    ensures SideOk(b, s)
  {
    assert forall i :: 0 <= i < |a| ==> SameQueue(a[i], b[i]);
    assert Prices(b) == Prices(a);
    forall l | l in b
      ensures LevelOk(l, s)
    {
      var i :| 0 <= i < |b| && b[i] == l;
      assert a[i] in a;
    }
  }

  lemma ApplyAlikeIff(a: Node, b: Node, e: Entry)
    requires Alike(a, b) && NodeOk(a) && IsSubmission(e)
    ensures var (m, r), (n, q) := Apply(a, e), Apply(b, e);
      && (r == q <==> DecideAlike(a, b, [e])) && (r == q ==> Alike(m, n)) && NodeOk(m)
  {
    AlikeIsOk(a, b);
    assert [e][1..] == [];
    var symbol := e.o.symbol;
    if symbol in a.books {
      OutcomeAlikeIff(a.books[symbol], b.books[symbol], e.o);
      ProcessIsOk(a.books[symbol], e.o);
      hide Process, AlikeBooks, BookOk, Ord.Fresh, DecidedAlike;
    }
  }

  /** Exactly when nodes with the same queues answer a log alike: when they decide alike about every FOK order in it.
      All queues are then the same in the end. */
  lemma {:induction false} AnswersAlikeIff(a: Node, b: Node, log: seq<Entry>)
    requires Alike(a, b) && NodeOk(a) && forall e <- log :: IsSubmission(e)
    ensures ApplyAll(a, log).1 == ApplyAll(b, log).1 <==> DecideAlike(a, b, log)
    ensures DecideAlike(a, b, log) ==> Alike(ApplyAll(a, log).0, ApplyAll(b, log).0)
    ensures NodeOk(ApplyAll(a, log).0)
    decreases |log|
  {
    if log != [] {
      assert log[0] in log;
      ApplyAlikeIff(a, b, log[0]);
      DecidesFirst(a, b, log);
      hide Apply, Alike, NodeOk, IsSubmission, DecideAlike;
      var (m, r) := Apply(a, log[0]);
      var (n, q) := Apply(b, log[0]);
      StaysOk(m, log[1..]);
      if r == q {
        AnswersAlikeIff(m, n, log[1..]);
        SameTail(r, ApplyAll(m, log[1..]).1, ApplyAll(n, log[1..]).1);
      } else {
        assert ([r] + ApplyAll(m, log[1..]).1)[0] != ([q] + ApplyAll(n, log[1..]).1)[0];
      }
    }
  }

  /** Nodes that agree on all queues stay so, and answer every log of steady orders alike. */
  lemma ApplyAllAlike(a: Node, b: Node, log: seq<Entry>)
    requires Alike(a, b) && NodeOk(a) && forall e <- log :: Steady(e)
    ensures Alike(ApplyAll(a, log).0, ApplyAll(b, log).0) && ApplyAll(a, log).1 == ApplyAll(b, log).1
    ensures NodeOk(ApplyAll(a, log).0)
  {
    SteadyDecide(a, b, log);
    AnswersAlikeIff(a, b, log);
  }

  lemma QueuesHave(a: seq<Level>, b: seq<Level>, id: nat)
    requires SameQueues(a, b)
    ensures SideHas(a, id) <==> SideHas(b, id)
  {
    if SideHas(a, id) {
      var l :| l in a && HasId(l.queue, id);
      var i :| 0 <= i < |a| && a[i] == l;
      assert SameQueue(a[i], b[i]) && b[i] in b;
    }
    if SideHas(b, id) {
      var l :| l in b && HasId(l.queue, id);
      var i :| 0 <= i < |b| && b[i] == l;
      assert SameQueue(a[i], b[i]) && a[i] in a;
    }
  }

  /** Nodes that agree on all queues take the same logs of steady orders. */
  lemma {:induction false} TakesAllAlike(a: Node, b: Node, log: seq<Entry>)
    requires Alike(a, b) && NodeOk(a) && TakesAll(a, log) && forall e <- log :: Steady(e)
    ensures TakesAll(b, log)
    decreases |log|
  {
    if log != [] {
      var e := log[0];
      assert e in log;
      TakesAlike(a, b, e);
      ApplyAlikeIff(a, b, e);
      SteadyDecide(a, b, [e]);
      hide Apply, Alike, NodeOk, Steady, Takes;
      TakesAllAlike(Apply(a, e).0, Apply(b, e).0, log[1..]);
    }
  }

  lemma TakesAlike(a: Node, b: Node, e: Entry)
    requires Alike(a, b) && Takes(a, e) && e.OrderEntry?
    ensures Takes(b, e)
  {
    var symbol := e.o.symbol;
    if symbol in a.books {
      QueuesHave(a.books[symbol].bids, b.books[symbol].bids, e.o.id);
      QueuesHave(a.books[symbol].asks, b.books[symbol].asks, e.o.id);
    }
  }

  lemma {:induction false} TakesSplit(n: Node, a: seq<Entry>, b: seq<Entry>)
    ensures TakesAll(n, a + b) <==> TakesAll(n, a) && TakesAll(ApplyAll(n, a).0, b)
    decreases |a|
  {
    hide Apply, Takes;
    if a == [] {
      assert a + b == b;
    } else {
      assert (a + b)[0] == a[0] && (a + b)[1..] == a[1..] + b;
      TakesSplit(Apply(n, a[0]).0, a[1..], b);
    }
  }

  lemma {:induction false} SteadyDecide(a: Node, b: Node, log: seq<Entry>)
    requires forall e <- log :: Steady(e)
    ensures DecideAlike(a, b, log)
    decreases |log|
  {
    if log != [] {
      assert log[0] in log;
      hide Apply, Ord.Fresh;
      SteadyDecide(Apply(a, log[0]).0, Apply(b, log[0]).0, log[1..]);
    }
  }

  lemma SameTail<T>(x: T, a: seq<T>, b: seq<T>)
    ensures [x] + a == [x] + b <==> a == b
  {
    assert ([x] + a)[1..] == a && ([x] + b)[1..] == b;
  }

  lemma DecidesFirst(a: Node, b: Node, log: seq<Entry>)
    requires log != []
    ensures DecideAlike(a, b, log) <==>
      DecideAlike(a, b, [log[0]]) && DecideAlike(Apply(a, log[0]).0, Apply(b, log[0]).0, log[1..])
  {
    hide Apply, DecidedAlike;
    assert [log[0]][1..] == [];
  }

  lemma {:induction false} StaysOk(n: Node, log: seq<Entry>)
    requires NodeOk(n) && forall e <- log :: IsSubmission(e)
    ensures NodeOk(ApplyAll(n, log).0)
    decreases |log|
  {
    if log != [] {
      assert log[0] in log;
      if log[0].o.symbol in n.books { ProcessIsOk(n.books[log[0].o.symbol], log[0].o); }
      hide Process, BookOk, Ord.Fresh;
      StaysOk(Apply(n, log[0]).0, log[1..]);
    }
  }

  // ------------------------------------------------------------------ rebuilding a book

  function Exact(l: Level): Level { l.(total := Sum(Remain, l.queue)) }

  function ExactAll(levels: seq<Level>): (r: seq<Level>)
    ensures |r| == |levels| && forall i :: 0 <= i < |levels| ==> r[i] == Exact(levels[i])
  {
    seq(|levels|, i requires 0 <= i < |levels| => Exact(levels[i]))
  }

  lemma AddBehind(s: Side, levels: seq<Level>, o: Ord)
    requires forall l <- levels :: Before(Desc(s), l.price, o.price)
    ensures AddTo(s, levels, o) == levels + [Append(Level(o.price, [], 0.0), o)]
  {
    var ps := Prices(levels);
    forall i | 0 <= i < |ps|
      ensures Before(Desc(s), ps[i], o.price)
    {
      assert levels[i] in levels;
    }
    RankIsUnique(Desc(s), ps, o.price, |levels|);
    assert levels[..|levels|] == levels && levels[|levels|..] == [];
  }

  lemma AddToLast(s: Side, levels: seq<Level>, l: Level, o: Ord)
    requires l.price == o.price && forall m <- levels :: Before(Desc(s), m.price, o.price)
    ensures AddTo(s, levels + [l], o) == levels + [Append(l, o)]
  {
    var ps := Prices(levels + [l]);
    forall i | 0 <= i < |levels|
      ensures Before(Desc(s), ps[i], o.price)
    {
      assert levels[i] in levels;
    }
    RankIsUnique(Desc(s), ps, o.price, |levels|);
    assert (levels + [l])[|levels| := Append(l, o)] == levels + [Append(l, o)];
  }

  lemma AppendHeld(l: Level, o: Ord)
    requires l.total == Held(l)
    ensures Append(l, o).total == Held(Append(l, o))
  {
    SumConcat(Remain, l.queue, [o]);
  }

  lemma {:induction false} AddAllConcat(b: Book, xs: seq<Ord>, ys: seq<Ord>)
    ensures AddAll(b, xs + ys) == AddAll(AddAll(b, xs), ys)
    decreases |xs|
  {
    hide Add;
    if xs == [] {
      assert xs + ys == ys;
    } else {
      assert (xs + ys)[0] == xs[0] && (xs + ys)[1..] == xs[1..] + ys;
      AddAllConcat(Add(b, xs[0]), xs[1..], ys);
    }
  }

  lemma AddOneMore(b: Book, os: seq<Ord>, o: Ord)
    ensures AddAll(b, os + [o]) == Add(AddAll(b, os), o)
  {
    AddAllConcat(b, os, [o]);
  }

  lemma AddNone(b: Book)
    ensures AddAll(b, []) == b
  {
  }

  lemma OrdersAre(b: Book)
    ensures AllOrders(b) == Flatten(b.bids) + Flatten(b.asks)
    ensures [] + Flatten(b.bids) == Flatten(b.bids)
  {
    hide Flatten;
  }

  /** Adding the rest of a queue to the last level. */
  lemma {:induction false} AddQueue(b: Book, s: Side, levels: seq<Level>, l: Level, q: seq<Ord>)
    requires b.Of(s) == levels + [l] && l.total == Held(l)
    requires forall m <- levels :: Before(Desc(s), m.price, l.price)
    requires forall o <- q :: o.side == s && o.price == l.price
    ensures AddAll(b, q) == b.With(s, levels + [Exact(l.(queue := l.queue + q))])
    decreases |q|
  {
    assert l.total == Sum(Remain, l.queue);
    hide AddTo, Held, Before, Sum, Append, Exact;
    if q == [] {
      ExactEmpty(l);
    } else {
      var o := q[0];
      assert o in q;
      AddToLast(s, levels, l, o);
      AppendHeld(l, o);
      QueueStep(l, o, q);
      AddQueue(Add(b, o), s, levels, Append(l, o), q[1..]);
    }
  }

  lemma ExactEmpty(l: Level)
    requires l.total == Sum(Remain, l.queue)
    ensures Exact(l.(queue := l.queue + [])) == l
  {
    assert l.queue + [] == l.queue;
  }

  lemma QueueStep(l: Level, o: Ord, q: seq<Ord>)
    requires q != [] && q[0] == o
    ensures Append(l, o).price == l.price
    ensures Exact(Append(l, o).(queue := Append(l, o).queue + q[1..])) == Exact(l.(queue := l.queue + q))
  {
    assert l.queue + [o] + q[1..] == l.queue + q;
  }

  /** Adding one whole level behind all others. */
  lemma AddLevel(b: Book, s: Side, done: seq<Level>, l: Level)
    requires b.Of(s) == done && LevelOk(l, s) && forall m <- done :: Before(Desc(s), m.price, l.price)
    ensures AddAll(b, l.queue) == b.With(s, done + [Exact(l)])
  {
    var q := l.queue;
    assert q[0] in q;
    AddBehind(s, done, q[0]);
    var first := Append(Level(l.price, [], 0.0), q[0]);
    AppendHeld(Level(l.price, [], 0.0), q[0]);
    assert forall o <- q[1..] :: o in q;
    hide AddTo, Held, Before, Sum;
    AddQueue(b.With(s, done + [first]), s, done, first, q[1..]);
    assert first.queue + q[1..] == q;
  }

  lemma LevelFollows(s: Side, done: seq<Level>, l: Level, back: seq<Level>)
    requires SideOk(done + [l] + back, s)
    ensures LevelOk(l, s) && forall m <- done :: Before(Desc(s), m.price, l.price)
    ensures SideOk(done + [Exact(l)] + back, s)
  {
    CancelIsOk(done, l, Exact(l), back, s);
    var ps := Prices(done + [l] + back);
    forall m | m in done
      ensures Before(Desc(s), m.price, l.price)
    {
      var i :| 0 <= i < |done| && done[i] == m;
      assert Before(Desc(s), ps[i], ps[|done|]);
    }
  }

  lemma ExactStep(done: seq<Level>, levels: seq<Level>)
    requires levels != []
    ensures done + [Exact(levels[0])] + ExactAll(levels[1..]) == done + ExactAll(levels)
  {
  }

  /** Adding a whole side back, best level first, rebuilds it with exact totals. */
  lemma {:induction false} AddSide(b: Book, s: Side, done: seq<Level>, levels: seq<Level>)
    requires b.Of(s) == done && SideOk(done + levels, s)
    ensures AddAll(b, Flatten(levels)) == b.With(s, done + ExactAll(levels))
    decreases |levels|
  {
    if levels == [] {
      assert done + ExactAll(levels) == done;
    } else {
      var l := levels[0];
      assert done + levels == done + [l] + levels[1..];
      LevelFollows(s, done, l, levels[1..]);
      AddAllConcat(b, l.queue, Flatten(levels[1..]));
      hide Held, SideOk, Before, AddAll, Sum, LevelOk, Exact;
      AddLevel(b, s, done, l);
      AddSide(AddAll(b, l.queue), s, done + [Exact(l)], levels[1..]);
      ExactStep(done, levels);
    }
  }

  /** Restoring a book from its own orders gives the same queues; only the totals are made exact. */
  lemma RestoreIsExact(b: Book)
    requires BookOk(b)
    ensures AddAll(Book([], []), AllOrders(b)) == Book(ExactAll(b.bids), ExactAll(b.asks))
  {
    hide *;
    BothOk(b);
    assert [] + b.bids == b.bids && [] + b.asks == b.asks;
    AddAllConcat(Book([], []), Flatten(b.bids), Flatten(b.asks));
    EmptyBook();
    AddSide(Book([], []), Buy, [], b.bids);
    OneSideDone(ExactAll(b.bids));
    AddSide(Book(ExactAll(b.bids), []), Sell, [], b.asks);
    OtherSideDone(ExactAll(b.bids), ExactAll(b.asks));
  }

  lemma BothOk(b: Book)
    requires BookOk(b)
    ensures SideOk(b.bids, Buy) && SideOk(b.asks, Sell) && AllOrders(b) == Flatten(b.bids) + Flatten(b.asks)
  {
  }

  lemma EmptyBook()
    ensures Book([], []).Of(Buy) == []
  {
  }

  lemma OneSideDone(bids: seq<Level>)
    ensures Book([], []).With(Buy, [] + bids) == Book(bids, []) && Book(bids, []).Of(Sell) == []
  {
    assert [] + bids == bids;
  }

  lemma OtherSideDone(bids: seq<Level>, asks: seq<Level>)
    ensures Book(bids, []).With(Sell, [] + asks) == Book(bids, asks)
  {
    assert [] + asks == asks;
  }

  /** A snapshot holds the bids before the asks, and each side in priority order. */
  lemma SnapshotOrder(b: Book)
    requires BookOk(b)
    ensures var k, os := |Flatten(b.bids)|, AllOrders(b);
      && k <= |os| && (forall i :: 0 <= i < |os| ==> (os[i].side == Buy <==> i < k))
      && (forall i, j :: 0 <= i < j < k ==> os[i].price >= os[j].price)
      && (forall i, j :: k <= i < j < |os| ==> os[i].price <= os[j].price)
  {
    FlattenRests(b.bids, Buy);
    FlattenRests(b.asks, Sell);
    FlattenWorsens(b.bids, Buy);
    FlattenWorsens(b.asks, Sell);
    hide Flatten, SideOk;
    var bids, asks, os := Flatten(b.bids), Flatten(b.asks), AllOrders(b);
    forall i | 0 <= i < |os|
      ensures os[i].side == Buy <==> i < |bids|
    {
      if i < |bids| { assert bids[i] in bids; } else { assert asks[i - |bids|] in asks; }
    }
    assert forall i :: |bids| <= i < |os| ==> os[i] == asks[i - |bids|];
  }

  lemma RestoreIsAlike(n: Node, spare: Node)
    requires NodeOk(n) && spare.books.Keys == n.books.Keys
    ensures Alike(Restore(spare, TakeSnapshot(n)), n)
  {
    hide AddAll, AllOrders, ExactAll, BookOk, AlikeBooks;
    forall symbol | symbol in n.books
      ensures AlikeBooks(Restore(spare, TakeSnapshot(n)).books[symbol], n.books[symbol])
    {
      RestoreIsExact(n.books[symbol]);
      ExactIsAlike(n.books[symbol]);
    }
  }

  lemma ExactIsAlike(b: Book)
    ensures AlikeBooks(Book(ExactAll(b.bids), ExactAll(b.asks)), b)
  {
  }

  // ------------------------------------------------------------------ resuming

  lemma {:induction false} ApplySplit(n: Node, a: seq<Entry>, b: seq<Entry>)
    ensures var (m, r) := ApplyAll(n, a);
      ApplyAll(n, a + b) == (ApplyAll(m, b).0, r + ApplyAll(m, b).1)
    decreases |a|
  {
    if a == [] {
      assert a + b == b && [] + ApplyAll(n, b).1 == ApplyAll(n, b).1;
    } else {
      assert (a + b)[0] == a[0] && (a + b)[1..] == a[1..] + b;
      hide Apply;
      var (m, r) := Apply(n, a[0]);
      ApplySplit(m, a[1..], b);
      var l := ApplyAll(m, a[1..]).0;
      assert [r] + (ApplyAll(m, a[1..]).1 + ApplyAll(l, b).1) == [r] + ApplyAll(m, a[1..]).1 + ApplyAll(l, b).1;
    }
  }

  /** Cut a log anywhere, take a snapshot, restore it on any node with the same markets, and apply the rest: the answers
      are those of the uninterrupted run, and so are all queues and the sequence number in the end. */
  lemma ResumedRunIsTheSame(n: Node, spare: Node, log: seq<Entry>, cut: nat)
    requires NodeOk(n) && cut <= |log| && (forall e <- log :: Steady(e)) && spare.books.Keys == n.books.Keys
    ensures var (m, first) := ApplyAll(n, log[..cut]);
      var (l, second) := ApplyAll(Restore(spare, TakeSnapshot(m)), log[cut..]);
      first + second == ApplyAll(n, log).1 && Alike(l, ApplyAll(n, log).0)
  {
    assert log == log[..cut] + log[cut..];
    ApplySplit(n, log[..cut], log[cut..]);
    SameMarkets(n, log[..cut]);
    var m := ApplyAll(n, log[..cut]).0;
    assert Alike(n, n) by { assert forall symbol <- n.books :: AlikeBooks(n.books[symbol], n.books[symbol]); }
    ApplyAllAlike(n, n, log[..cut]);
    RestoreIsAlike(m, spare);
    var restored := Restore(spare, TakeSnapshot(m));
    AlikeSymmetric(restored, m);
    ApplyAllAlike(m, restored, log[cut..]);
    AlikeSymmetric(ApplyAll(m, log[cut..]).0, ApplyAll(restored, log[cut..]).0);
  }

  /** With FOK orders in the log: the resumed run gives the answers of the uninterrupted one exactly if the restored
      node decides about each of them as the one it was taken of would have done. */
  lemma ResumedRunIsTheSameIff(n: Node, spare: Node, log: seq<Entry>, cut: nat)
    requires NodeOk(n) && cut <= |log| && (forall e <- log :: IsSubmission(e)) && spare.books.Keys == n.books.Keys
    ensures var (m, first) := ApplyAll(n, log[..cut]);
      var restored := Restore(spare, TakeSnapshot(m));
      var (l, second) := ApplyAll(restored, log[cut..]);
      && (first + second == ApplyAll(n, log).1 <==> DecideAlike(m, restored, log[cut..]))
      && (first + second == ApplyAll(n, log).1 ==> Alike(ApplyAll(n, log).0, l))
  {
    assert log == log[..cut] + log[cut..];
    ApplySplit(n, log[..cut], log[cut..]);
    SameMarkets(n, log[..cut]);
    StaysOk(n, log[..cut]);
    var (m, first) := ApplyAll(n, log[..cut]);
    var restored := Restore(spare, TakeSnapshot(m));
    RestoreIsAlike(m, spare);
    AlikeSymmetric(restored, m);
    AnswersAlikeIff(m, restored, log[cut..]);
    var second, rest := ApplyAll(restored, log[cut..]).1, ApplyAll(m, log[cut..]).1;
    hide *;
    assert first + second == first + rest ==> (first + second)[|first|..] == (first + rest)[|first|..];
    assert (first + second)[|first|..] == second && (first + rest)[|first|..] == rest;
  }

  lemma AlikeSymmetric(a: Node, b: Node)
    requires Alike(a, b)
    ensures Alike(b, a)
  {
  }

  /** How many entries of a log are for markets that there are. */
  function Known(symbols: set<string>, log: seq<Entry>): nat {
    if log == [] then 0
    else (if log[0].OrderEntry? && log[0].o.symbol in symbols then 1 else 0) + Known(symbols, log[1..])
  }

  /** The count in 64 bits. */
  predicate IsCount(sequence: nat, before: nat, k: nat) { sequence == (before + k) % 18446744073709551616 }

  lemma OneMoreCounted(sequence: nat, next: nat, before: nat, k: nat)
    requires IsCount(next, before, 1) && IsCount(sequence, next, k)
    ensures IsCount(sequence, before, 1 + k)
  {
  }

  lemma NoneCounted(before: nat)
    requires before < 18446744073709551616
    ensures IsCount(before, before, 0)
  {
  }

  /** The sequence number counts the orders that were applied. */
  lemma {:induction false} SequenceCounts(n: Node, log: seq<Entry>)
    requires n.sequence < 18446744073709551616 && forall e <- log :: e.OrderEntry?
    ensures IsCount(ApplyAll(n, log).0.sequence, n.sequence, Known(n.books.Keys, log))
    ensures |ApplyAll(n, log).1| == |log|
    decreases |log|
  {
    NoneCounted(n.sequence);
    if log != [] {
      var m := Apply(n, log[0]).0;
      assert log[0] in log && forall e <- log[1..] :: e in log;
      NextEntry(n, log[0]);
      hide Apply, IsCount;
      SequenceCounts(m, log[1..]);
      if log[0].o.symbol in n.books {
        OneMoreCounted(ApplyAll(n, log).0.sequence, m.sequence, n.sequence, Known(n.books.Keys, log[1..]));
      }
    }
  }

  /** Every answer has the number of orders applied so far, or says that there is no such market. */
  lemma AnswersCount(n: Node, log: seq<Entry>, i: nat)
    requires n.sequence < 18446744073709551616 && (forall e <- log :: e.OrderEntry?) && i < |log|
    ensures |ApplyAll(n, log).1| == |log|
    ensures var r, k := ApplyAll(n, log).1[i], Known(n.books.Keys, log[..i + 1]);
      if log[i].o.symbol in n.books then r.Applied? && IsCount(r.sequence, n.sequence, k) else r.NoMarket?
  {
    var m := ApplyAll(n, log[..i]).0;
    assert log == log[..i] + log[i..] && log[i..][0] == log[i] && log[..i + 1] == log[..i] + [log[i]];
    assert log[..i + 1][..i] == log[..i];
    hide Apply, Known, IsCount;
    ApplySplit(n, log[..i], log[i..]);
    ApplySplit(n, log[..i], [log[i]]);
    SequenceCounts(n, log);
    SequenceCounts(n, log[..i]);
    SequenceCounts(n, log[..i + 1]);
    SameMarkets(n, log[..i]);
    NextEntry(m, log[i]);
    FirstAnswer(m, log[i..]);
    FirstAnswer(m, [log[i]]);
    StaysCounted(n, log[..i]);
  }

  lemma FirstAnswer(n: Node, log: seq<Entry>)
    requires log != []
    ensures |ApplyAll(n, log).1| > 0 && ApplyAll(n, log).1[0] == Apply(n, log[0]).1
    ensures |log| == 1 ==> ApplyAll(n, log).0 == Apply(n, log[0]).0
  {
    hide Apply;
  }

  lemma StaysCounted(n: Node, log: seq<Entry>)
    requires n.sequence < 18446744073709551616 && forall e <- log :: e.OrderEntry?
    ensures ApplyAll(n, log).0.sequence < 18446744073709551616
  {
    SequenceCounts(n, log);
    hide ApplyAll, Known;
  }

  lemma NextEntry(n: Node, e: Entry)
    requires e.OrderEntry? && n.sequence < 18446744073709551616
    ensures var (m, r) := Apply(n, e);
      && m.books.Keys == n.books.Keys && m.sequence < 18446744073709551616
      && (e.o.symbol !in n.books ==> r == NoMarket && m.sequence == n.sequence)
      && (e.o.symbol in n.books ==>
            r.Applied? && r.sequence == m.sequence && m.sequence == (n.sequence + 1) % 18446744073709551616)
  {
    hide Process;
  }

  lemma {:induction false} SameMarkets(n: Node, log: seq<Entry>)
    ensures ApplyAll(n, log).0.books.Keys == n.books.Keys
    decreases |log|
  {
    if log != [] {
      SameMarkets(Apply(n, log[0]).0, log[1..]);
      hide Process, AddAll;
      assert Apply(n, log[0]).0.books.Keys == n.books.Keys;
    }
  }
}
