/** Level totals over whole runs: matching never lowers them, so they drift by exactly the traded volume. */
module Totals {
  import opened Models
  import opened SortedKeys
  import opened BookSpec
  import opened MatchLaws
  import opened LimitLaws
  import opened BookLaws
  import opened Runs

  /** The volume traded against resting orders of side s at one price. */
  function TradedAt(ts: seq<Trade>, s: Side, price: real): real {
    if ts == [] then 0.0
    else
      var here := ts[0].takerSide == s.Opposite() && ts[0].price == price;
      (if here then ts[0].amount else 0.0) + TradedAt(ts[1..], s, price)
  }

  /** The volume traded at each level since that level was created. */
  type Account = real -> real

  function NoVolume(price: real): real { 0.0 }

  predicate HasLevel(levels: seq<Level>, price: real) { exists l <- levels :: l.price == price }

  /** One step of the account: a level that did not exist before starts from zero. */
  function Booked(before: seq<Level>, a: Account, ts: seq<Trade>, s: Side): Account {
    (price: real) => (if HasLevel(before, price) then a(price) else 0.0) + TradedAt(ts, s, price)
  }

  datatype Audited = Audited(run: Run, bids: Account, asks: Account) {
    function Of(s: Side): Account { if s == Buy then bids else asks }
  }

  function AuditedStep(x: Audited, c: Cmd): Audited {
    var next := Step(x.run, c);
    var ts := if c.Submit? then Process(x.run.book, c.o).trades else [];
    Audited(next, Booked(x.run.book.bids, x.bids, ts, Buy), Booked(x.run.book.asks, x.asks, ts, Sell))
  }

  function AuditedAfter(x: Audited, log: seq<Cmd>): Audited
    decreases |log|
  {
    if log == [] then x else AuditedAfter(AuditedStep(x, log[0]), log[1..])
  }

  /** Every level's total is what rests there plus what was traded there since the level was created. */
  ghost predicate Accounted(levels: seq<Level>, a: Account) {
    forall l <- levels :: l.total == Held(l) + a(l.price) && a(l.price) >= 0.0
  }

  ghost predicate AllAccounted(x: Audited) { Accounted(x.run.book.bids, x.bids) && Accounted(x.run.book.asks, x.asks) }

  // ------------------------------------------------------------------ matching

  lemma {:induction false} TradedConcat(a: seq<Trade>, b: seq<Trade>, s: Side, price: real)
    ensures TradedAt(a + b, s, price) == TradedAt(a, s, price) + TradedAt(b, s, price)
  {
    if a == [] {
      assert a + b == b;
    } else {
      assert (a + b)[1..] == a[1..] + b;
      TradedConcat(a[1..], b, s, price);
    }
  }

  /** All trades of one queue are at its price, and make up for what the queue has lost. */
  lemma {:induction false} QueueTrades(o: Ord, price: real, q: seq<Ord>, s: Side, at: real)
    requires o.Kept() && (o.remain > 0.0 ==> o.Open()) && s == o.side.Opposite() && forall x <- q :: Rests(x, s, price)
    ensures var f := MatchQueue(o, price, q);
      && TradedAt(f.trades, s, at) == (if at == price then Sum(Remain, q) - Sum(Remain, f.rest) else 0.0)
      && TradedAt(f.trades, s, at) >= 0.0
    decreases |q|
  {
    hide Cost;
    if o.remain > 0.0 && q != [] {
      assert q[0] in q;
      OneFill(o, q[0], s);
      var amt := Min(o.remain, q[0].remain);
      var t, m := o.Fill(amt, Cost(price, amt)), q[0].Fill(amt, Cost(price, amt));
      var f := MatchQueue(o, price, q);
      if m.remain == 0.0 {
        QueueTrades(t, price, q[1..], s, at);
        assert f.trades[1..] == MatchQueue(t, price, q[1..]).trades;
      } else {
        assert f.trades[1..] == [] && f.rest[1..] == q[1..];
      }
    }
  }

  /** A surviving level keeps its total; what it holds has shrunk by exactly what was traded at its price. */
  ghost predicate Drifts(levels: seq<Level>, left: seq<Level>, ts: seq<Trade>, s: Side) {
    && (forall p :: TradedAt(ts, s, p) >= 0.0)
    && forall l <- left :: exists m <- levels ::
         m.price == l.price && m.total == l.total && Held(m) == Held(l) + TradedAt(ts, s, l.price)
  }

  lemma BestDrifts(o: Ord, levels: seq<Level>, s: Side)
    requires o.Kept() && (o.remain > 0.0 ==> o.Open()) && s == o.side.Opposite() && SideOk(levels, s) && levels != []
    ensures var r := MatchBest(o, levels); Drifts(levels, r.levels, r.trades, s)
    ensures forall p :: p != levels[0].price ==> TradedAt(MatchBest(o, levels).trades, s, p) == 0.0
  {
    assert levels[0] in levels;
    var q := levels[0].queue;
    forall p
      ensures TradedAt(MatchBest(o, levels).trades, s, p) >= 0.0
      ensures p != levels[0].price ==> TradedAt(MatchBest(o, levels).trades, s, p) == 0.0
    {
      QueueTrades(o, levels[0].price, q, s, p);
    }
    QueueTrades(o, levels[0].price, q, s, levels[0].price);
    SideOkTail(levels, s);
    var r := MatchBest(o, levels);
    forall l | l in r.levels
      ensures exists m <- levels ::
         m.price == l.price && m.total == l.total && Held(m) == Held(l) + TradedAt(r.trades, s, l.price)
    {
      if l in levels[1..] { assert l in levels; } else { assert l.price == levels[0].price; }
    }
  }

  lemma {:induction false} SideDrifts(o: Ord, levels: seq<Level>, priced: bool, s: Side)
    requires o.Kept() && (o.remain > 0.0 ==> o.Open()) && s == o.side.Opposite() && SideOk(levels, s)
    ensures var r := MatchSide(o, levels, priced); Drifts(levels, r.levels, r.trades, s)
    decreases |levels|
  {
    hide Drifts, MatchQueue, TradedAt, SideOk, Ord.Kept, Ord.Open;
    if o.remain <= 0.0 || levels == [] || !Accepts(o, priced, levels[0].price) {
      NoDrift(levels, s);
    } else {
      BestDrifts(o, levels, s);
      BestIsLeft(o, levels, s);
      var r := MatchBest(o, levels);
      BestAt(levels, r.levels, r.trades, s);
      if |r.levels| < |levels| {
        SideOkTail(levels, s);
        SideDrifts(r.taker, r.levels, priced, s);
        var t := MatchSide(r.taker, r.levels, priced);
        DriftsTwice(levels, t.levels, r.trades, t.trades, s);
      }
    }
  }

  lemma NoDrift(levels: seq<Level>, s: Side)
    ensures Drifts(levels, levels, [], s)
  {
  }

  lemma BestAt(levels: seq<Level>, left: seq<Level>, ts: seq<Trade>, s: Side)
    requires Drifts(levels, left, ts, s)
    ensures forall p :: TradedAt(ts, s, p) >= 0.0
  {
  }

  lemma DriftsTwice(levels: seq<Level>, left: seq<Level>, ts: seq<Trade>, us: seq<Trade>, s: Side)
    requires levels != [] && Drifts(levels[1..], left, us, s)
    requires forall l <- levels[1..] :: Before(Desc(s), levels[0].price, l.price)
    requires forall p :: TradedAt(ts, s, p) >= 0.0 && (p != levels[0].price ==> TradedAt(ts, s, p) == 0.0)
    ensures Drifts(levels, left, ts + us, s)
  {
    forall p
      ensures TradedAt(ts + us, s, p) == TradedAt(ts, s, p) + TradedAt(us, s, p)
    {
      TradedConcat(ts, us, s, p);
    }
    forall l | l in left
      ensures exists m <- levels ::
         m.price == l.price && m.total == l.total && Held(m) == Held(l) + TradedAt(ts + us, s, l.price)
    {
      var m :| && m in levels[1..] && m.price == l.price && m.total == l.total
               && Held(m) == Held(l) + TradedAt(us, s, l.price);
      assert m in levels;
    }
  }

  lemma OnceDrifts(o: Ord, levels: seq<Level>, s: Side)
    requires o.Fresh() && s == o.side.Opposite() && SideOk(levels, s)
    ensures var r := MatchOnce(o, levels); Drifts(levels, r.levels, r.trades, s)
  {
    FreshIsFair(o);
    hide MatchBest, Drifts, SideOk;
    NoDrift(levels, s);
    if levels != [] { BestDrifts(o, levels, s); }
  }

  lemma MatchedDrifts(o: Ord, levels: seq<Level>, s: Side)
    requires o.Fresh() && s == o.side.Opposite() && SideOk(levels, s)
    ensures var r := Matched(o, levels); Drifts(levels, r.levels, r.trades, s)
  {
    FreshIsFair(o);
    hide MatchSide, MatchOnce, Scan, Drifts, SideOk, Ord.Kept, Ord.Open, Ord.Fresh;
    if Matched(o, levels) == Result(o, levels, [], []) {
      NoDrift(levels, s);
    } else if Matched(o, levels) == MatchOnce(o, levels) {
      OnceDrifts(o, levels, s);
    } else {
      SideDrifts(o, levels, o.kind == Limit, s);
    }
  }

  // ------------------------------------------------------------------ every step

  /** The side that is matched against. */
  lemma MatchedAccounts(o: Ord, levels: seq<Level>, s: Side, a: Account)
    requires o.Fresh() && s == o.side.Opposite() && SideOk(levels, s) && Accounted(levels, a)
    ensures var r := Matched(o, levels); Accounted(r.levels, Booked(levels, a, r.trades, s))
  {
    MatchedDrifts(o, levels, s);
    var r := Matched(o, levels);
    hide Matched;
    forall l | l in r.levels
      ensures l.total == Held(l) + Booked(levels, a, r.trades, s)(l.price)
      ensures Booked(levels, a, r.trades, s)(l.price) >= 0.0
    {
      var m :| && m in levels && m.price == l.price && m.total == l.total
               && Held(m) == Held(l) + TradedAt(r.trades, s, l.price);
    }
  }

  lemma {:induction false} NothingTraded(ts: seq<Trade>, s: Side, price: real)
    requires forall t <- ts :: t.takerSide == s
    ensures TradedAt(ts, s, price) == 0.0
  {
    if ts != [] {
      assert ts[0] in ts;
      NothingTraded(ts[1..], s, price);
    }
  }

  lemma TakerSide(o: Ord, levels: seq<Level>, s: Side)
    requires o.Fresh() && s == o.side.Opposite() && SideOk(levels, s)
    ensures forall t <- Matched(o, levels).trades :: t.takerSide == o.side
  {
    FreshIsFair(o);
    MatchedIsGreedy(o, levels, s);
    ReachRests(o, levels, s);
    GreedyTrades(o, Reach(o, levels), o.kind == Limit, s);
  }

  /** A side that no trade has touched, and what an added order does to it. */
  lemma AddAccounts(s: Side, levels: seq<Level>, o: Ord, a: Account, ts: seq<Trade>)
    requires SideOk(levels, s) && Accounted(levels, a) && forall t <- ts :: t.takerSide == s
    ensures Accounted(levels, Booked(levels, a, ts, s))
    ensures Accounted(AddTo(s, levels, o), Booked(levels, a, ts, s))
  {
    var b := Booked(levels, a, ts, s);
    forall p
      ensures TradedAt(ts, s, p) == 0.0
    {
      NothingTraded(ts, s, p);
    }
    var front, at, back := AddSplits(s, levels, o);
    SumConcat(Remain, at.queue, [o]);
    if !HasPrice(s, levels, o.price) {
      assert forall l <- levels :: l in front || l in back;
      assert !HasLevel(levels, o.price);
    }
    forall l | l in AddTo(s, levels, o)
      ensures l.total == Held(l) + b(l.price) && b(l.price) >= 0.0
    {
      if l != Append(at, o) { assert l in levels; }
    }
  }

  lemma CancelAccounts(levels: seq<Level>, id: nat, s: Side, a: Account)
    requires Accounted(levels, a)
    ensures Accounted(levels, Booked(levels, a, [], s))
    ensures SideHas(levels, id) ==> Accounted(CancelIn(levels, id), Booked(levels, a, [], s))
  {
    if SideHas(levels, id) {
      var k := FirstWith(levels, id);
      CancelAt(levels, id, k);
      RemoveSums(levels[k].queue, id, Remain);
      assert Remain(Find(levels[k].queue, id)) == Find(levels[k].queue, id).remain;
      forall l | l in CancelIn(levels, id)
        ensures exists m <- levels :: m.price == l.price && m.total - Held(m) == l.total - Held(l)
      {
        if l in levels {} else { assert l == RemoveFromLevel(levels[k], id) && levels[k] in levels; }
      }
    }
  }

  /** A side that has only lost levels. */
  lemma FewerAccounts(levels: seq<Level>, left: seq<Level>, s: Side, a: Account)
    requires Accounted(levels, a) && forall l <- left :: l in levels
    ensures Accounted(left, Booked(levels, a, [], s))
  {
    CancelAccounts(levels, 0, s, a);
  }

  /** What a cancel may do to one side. */
  lemma WithdrawnSide(r: Run, id: nat, s: Side)
    ensures var levels, left := r.book.Of(s), Step(r, Withdraw(id)).book.Of(s);
      (SideHas(levels, id) && left == CancelIn(levels, id)) || forall l <- left :: l in levels
  {
    hide *;
    WithdrawCases(r, id);
    if SideHas(r.book.Of(Buy), id) {
      TakenOut(r, id, Buy);
      OneSideOrOther(r, Step(r, Withdraw(id)), Buy, s);
    } else if SideHas(r.book.Of(Sell), id) {
      TakenOut(r, id, Sell);
      OneSideOrOther(r, Step(r, Withdraw(id)), Sell, s);
    } else if SideHas(r.strays, id) {
      var x := StraySpot(r, id);
      TakenStray(r, id);
      LostFewer(TakeStray(r, id), x.side, x.price, s);
    } else {
      ForgottenBook(r, id);
      if id in r.spent { LostFewer(ForgetSpent(r, id), r.spent[id].side, r.spent[id].price, s); }
    }
  }

  lemma OneSideOrOther(r: Run, r': Run, t: Side, s: Side)
    ensures s == t || s == t.Opposite()
    ensures s != t && r'.book.Of(t.Opposite()) == r.book.Of(t.Opposite()) ==> r'.book.Of(s) == r.book.Of(s)
  {
  }

  lemma LostFewer(r: Run, t: Side, price: real, s: Side)
    ensures forall l <- LoseLevel(r, t, price).book.Of(s) :: l in r.book.Of(s)
  {
    LostParts(r, t, price);
    hide LoseLevel, HasPrice, PlaceOf;
  }

  lemma WithdrawAccounts(r: Run, id: nat, s: Side, a: Account)
    requires Accounted(r.book.Of(s), a)
    ensures Accounted(Step(r, Withdraw(id)).book.Of(s), Booked(r.book.Of(s), a, [], s))
  {
    hide *;
    var levels, left := r.book.Of(s), Step(r, Withdraw(id)).book.Of(s);
    WithdrawnSide(r, id, s);
    CancelAccounts(levels, id, s, a);
    if forall l <- left :: l in levels { FewerAccounts(levels, left, s, a); }
  }

  lemma StepAccounts(x: Audited, c: Cmd)
    requires Inv(x.run) && AllAccounted(x) && Admissible(x.run, c)
    ensures AllAccounted(AuditedStep(x, c))
  {
    match c
    case Submit(o) => SubmitAccounts(x, o);
    case Withdraw(id) =>
      WithdrawAccounts(x.run, id, Buy, x.bids);
      WithdrawAccounts(x.run, id, Sell, x.asks);
      hide Step, Accounted, Booked;
  }

  lemma SubmitAccounts(x: Audited, o: Ord)
    requires Inv(x.run) && AllAccounted(x) && o.Fresh()
    ensures AllAccounted(AuditedStep(x, Submit(o)))
  {
    var b := x.run.book;
    var s, own := o.side.Opposite(), o.side;
    var m := Matched(o, b.Of(s));
    StepIs(x.run, o);
    MatchedAccounts(o, b.Of(s), s, x.Of(s));
    TakerSide(o, b.Of(s), s);
    FreshIsFair(o);
    MatchedIsGreedy(o, b.Of(s), s);
    GreedyTerms(o, Reach(o, b.Of(s)), o.kind == Limit);
    AddAccounts(own, b.Of(own), m.taker, x.Of(own), m.trades);
    hide Matched, Accounted, Booked, AddTo, Step;
  }

  // ------------------------------------------------------------------ every run

  /** In every run, a level's total is what rests there plus the volume traded there since the level was created. */
  lemma {:induction false} TotalsDriftByVolume(x: Audited, log: seq<Cmd>)
    requires Inv(x.run) && AllAccounted(x) && Admitted(x.run, log)
    ensures AllAccounted(AuditedAfter(x, log)) && AuditedAfter(x, log).run == After(x.run, log)
    decreases |log|
  {
    if log != [] {
      StepAccounts(x, log[0]);
      StepKeepsInvariant(x.run, log[0]);
      hide Step, Inv, AllAccounted, Booked;
      TotalsDriftByVolume(AuditedStep(x, log[0]), log[1..]);
    }
  }

  /** Exactly when a side's totals are right: nothing has been traded at any of its levels since they were created. */
  lemma TotalsExactIff(x: Audited, log: seq<Cmd>, s: Side)
    requires Inv(x.run) && AllAccounted(x) && Admitted(x.run, log)
    ensures var y := AuditedAfter(x, log);
      TotalsExact(y.run.book.Of(s)) <==> forall l <- y.run.book.Of(s) :: y.Of(s)(l.price) == 0.0
  {
    TotalsDriftByVolume(x, log);
    hide Held, AuditedAfter;
  }

  ghost predicate NothingBooked(x: Audited) { forall p: real, s: Side :: x.Of(s)(p) == 0.0 }

  /** A log in which no submitted order trades. */
  predicate Quiet(r: Run, log: seq<Cmd>)
    decreases |log|
  {
    log == [] || ((log[0].Submit? ==> Process(r.book, log[0].o).trades == []) && Quiet(Step(r, log[0]), log[1..]))
  }

  lemma {:induction false} QuietBooksNothing(x: Audited, log: seq<Cmd>)
    requires NothingBooked(x) && Quiet(x.run, log)
    ensures NothingBooked(AuditedAfter(x, log))
    decreases |log|
  {
    if log != [] {
      NothingBookedOnce(x, log[0]);
      hide Step, NothingBooked, Booked;
      QuietBooksNothing(AuditedStep(x, log[0]), log[1..]);
    }
  }

  lemma NothingBookedOnce(x: Audited, c: Cmd)
    requires NothingBooked(x) && (c.Submit? ==> Process(x.run.book, c.o).trades == [])
    ensures NothingBooked(AuditedStep(x, c))
  {
    forall p: real, s: Side
      ensures AuditedStep(x, c).Of(s)(p) == 0.0
    {
      assert x.Of(s)(p) == 0.0 && TradedAt([], s, p) == 0.0;
    }
    hide Step, Process;
  }

  /** Over any log of orders that rest without trading and cancels, totals stay exactly the sums of remainders. */
  lemma QuietTotalsExact(r: Run, log: seq<Cmd>, s: Side)
    requires Inv(r) && TotalsExact(r.book.bids) && TotalsExact(r.book.asks) && Admitted(r, log) && Quiet(r, log)
    ensures TotalsExact(After(r, log).book.Of(s))
  {
    var x := Audited(r, NoVolume, NoVolume);
    forall p: real, t: Side
      ensures x.Of(t)(p) == 0.0
    {
      var none: Account := NoVolume;
      assert none(p) == NoVolume(p) == 0.0;
    }
    hide Inv, After, Quiet, Admitted, Held, AuditedAfter, NoVolume;
    QuietBooksNothing(x, log);
    TotalsDriftByVolume(x, log);
    TotalsExactIff(x, log, s);
    var y := AuditedAfter(x, log);
    forall l | l in y.run.book.Of(s)
      ensures y.Of(s)(l.price) == 0.0
    {
      assert NothingBooked(y);
    }
  }

  /** Hence, in every reachable state, totals err only upwards, and a killed FOK order really lacked volume. */
  lemma KilledFokLackedVolume(log: seq<Cmd>, o: Ord)
    requires Admitted(Start, log) && IsFok(o)
    ensures var levels := After(Start, log).book.Of(o.side.Opposite());
      && TotalsCover(levels)
      && (Scan(o, levels, 0.0) < o.remain ==> CrossVolume(o, levels) < o.remain)
  {
    StartIsKept();
    TotalsDriftByVolume(Audited(Start, NoVolume, NoVolume), log);
    RunKeepsInvariant(Start, log);
    var levels := After(Start, log).book.Of(o.side.Opposite());
    if Scan(o, levels, 0.0) < o.remain { FokKilledLacksVolume(o, levels, o.side.Opposite()); }
  }
}
