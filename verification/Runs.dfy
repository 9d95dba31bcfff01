/** Whole runs of one market: every log of submitted orders and cancels, from any well-kept state. */
module Runs {
  import opened Models
  import opened BookSpec
  import opened MatchLaws
  import opened LimitLaws
  import opened BookLaws

  datatype Cmd = Submit(o: Ord) | Withdraw(id: nat)

  /** The book; the orders that have left it or never entered it, as they were then; every trade so far; the filled
      orders that the index still knows; and the levels that were taken out of their trees with orders in them. */
  datatype Run = Run(book: Book, done: seq<Ord>, trades: seq<Trade>, spent: map<nat, Spot>, strays: seq<Level>)

  const Start := Holding(Book([], []))

  /** A market that starts with this book. */
  function Holding(b: Book): Run { Run(b, [], [], map[], []) }

  function Step(r: Run, c: Cmd): Run {
    match c
    case Submit(o) => Accept(r, o)
    case Withdraw(id) =>
      if SideHas(r.book.bids, id) then TakeOut(r, id, Buy)
      else if SideHas(r.book.asks, id) then TakeOut(r, id, Sell)
      else if SideHas(r.strays, id) then
        var x := StraySpot(r, id);
        if IsEmptied(TakeStray(r, id), x) then LoseLevel(TakeStray(r, id), x.side, x.price) else TakeStray(r, id)
      else if id in r.spent then
        var x := r.spent[id];
        if IsEmptied(r, x) then LoseLevel(ForgetSpent(r, id), x.side, x.price) else ForgetSpent(r, id)
      else r
  }

  /** A submitted order. Resting under an ID, it replaces a filled order that the index still knows by that ID. */
  function Accept(r: Run, o: Ord): Run {
    var p, s := Process(r.book, o), o.side.Opposite();
    var known := r.spent + FilledSpots(p.filled);
    Run(p.book, r.done + p.filled + (if p.rests then [] else [p.taker]), r.trades + p.trades,
        Swept(if p.rests then known - {o.id} else known, s, p.book.Of(s)), r.strays)
  }

  /** A cancel of a resting order. */
  function TakeOut(r: Run, id: nat, s: Side): Run
    requires SideHas(r.book.Of(s), id)
  {
    var left := CancelIn(r.book.Of(s), id);
    Run(r.book.With(s, left), r.done + [Resting(r.book.Of(s), id).(status := Cancelled)], r.trades,
        Swept(r.spent - {id}, s, left), r.strays)
  }

  /** The place of an order in a stray level. */
  function StraySpot(r: Run, id: nat): Spot
    requires SideHas(r.strays, id)
  {
    var k := FirstWith(r.strays, id);
    var o := Find(r.strays[k].queue, id);
    Spot(o.side, o.price, Astray(k))
  }

  /** A cancel of an order in a stray level: the index still leads to it. */
  function TakeStray(r: Run, id: nat): Run
    requires SideHas(r.strays, id)
  {
    var k := FirstWith(r.strays, id);
    var o := Find(r.strays[k].queue, id);
    r.(strays := r.strays[k := RemoveFromLevel(r.strays[k], id)], done := r.done + [o.(status := Cancelled)],
       spent := r.spent - {id})
  }

  /** A cancel of an order that has been filled: the index forgets it. */
  function ForgetSpent(r: Run, id: nat): Run { r.(spent := r.spent - {id}) }

  /** Has the level of an order that a cancel finds in the index become empty? */
  predicate IsEmptied(r: Run, x: Spot) {
    x.home.Gone? || (x.home.Astray? && (x.home.n >= |r.strays| || r.strays[x.home.n].queue == []))
  }

  /** Whatever level stands at the price leaves its tree. */
  function LoseLevel(r: Run, s: Side, price: real): Run {
    var ls := r.book.Of(s);
    if !HasPrice(s, ls, price) then r
    else
      var spent := map id | id in r.spent :: var x := r.spent[id];
        if x == Spot(s, price, Standing) then x.(home := Astray(|r.strays|)) else x;
      r.(book := r.book.With(s, DropPrice(s, ls, price)), spent := spent,
         strays := r.strays + [ls[PlaceOf(s, ls, price)]])
  }

  function After(r: Run, log: seq<Cmd>): Run
    decreases |log|
  {
    if log == [] then r else After(Step(r, log[0]), log[1..])
  }

  /** Is the ID that of an unfilled order in the index? */
  predicate InUse(r: Run, id: nat) { SideHas(r.book.bids, id) || SideHas(r.book.asks, id) || SideHas(r.strays, id) }

  /** Submitted orders start unfilled, under an ID that no unfilled order has. Anything may be cancelled. */
  predicate Admissible(r: Run, c: Cmd) { c.Submit? ==> c.o.Fresh() && !InUse(r, c.o.id) }

  /** A log each of whose steps is admissible when its turn comes. */
  predicate Admitted(r: Run, log: seq<Cmd>)
    decreases |log|
  {
    log == [] || (Admissible(r, log[0]) && Admitted(Step(r, log[0]), log[1..]))
  }

  // ------------------------------------------------------------------ sums over a whole run

  /** Anything summed over the orders in the book and those done with. */
  function Present(w: Ord -> real, r: Run): real {
    Sum(w, Flatten(r.book.bids)) + Sum(w, Flatten(r.book.asks)) + Sum(w, r.done)
  }

  /** Anything summed over all orders there ever were. */
  function Total(w: Ord -> real, r: Run): real {
    Present(w, r) + Sum(w, Flatten(r.strays))
  }

  function On(s: Side, w: Ord -> real): Ord -> real { (o: Ord) => if o.side == s then w(o) else 0.0 }

  lemma {:induction false} SumOn(s: Side, w: Ord -> real, os: seq<Ord>, t: Side)
    requires forall o <- os :: o.side == t
    ensures Sum(On(s, w), os) == if s == t then Sum(w, os) else 0.0
  {
    if os != [] {
      assert os[0] in os;
      SumOn(s, w, os[1..], t);
    }
  }

  lemma OnOne(s: Side, o: Ord)
    ensures On(s, FilledAmount)(o) == if o.side == s then o.filled else 0.0
    ensures On(s, FilledTotal)(o) == if o.side == s then o.filledTotal else 0.0
  {
    assert FilledAmount(o) == o.filled && FilledTotal(o) == o.filledTotal;
  }

  /** Both sides of the market have filled exactly what was traded, in amounts and in money. */
  ghost predicate Balanced(r: Run) { forall s: Side :: BalancedOn(r, s) }

  ghost predicate BalancedOn(r: Run, s: Side) {
    Total(On(s, FilledAmount), r) == Volume(r.trades) && Total(On(s, FilledTotal), r) == Value(r.trades)
  }

  /** Each order's own books are in order. */
  ghost predicate AllKept(r: Run) {
    && (forall o <- Flatten(r.book.bids) :: Fair(o)) && (forall o <- Flatten(r.book.asks) :: Fair(o))
    && (forall o <- r.done :: o.Kept() && Fair(o)) && (forall o <- Flatten(r.strays) :: Strays(o))
  }

  /** A stray order is as it was in the book. */
  predicate Strays(o: Ord) { Rests(o, o.side, o.price) && Fair(o) }

  ghost predicate Inv(r: Run) { BookOk(r.book) && AllKept(r) && Balanced(r) }

  // ------------------------------------------------------------------ one submitted order

  lemma FreshIsFair(o: Ord)
    requires o.Fresh()
    ensures o.Kept() && (o.remain > 0.0 ==> o.Open()) && Fair(o)
  {
  }

  lemma SettledTerms(t: Ord)
    requires t.Kept() && Fair(t)
    ensures Settled(t).Kept() && Fair(Settled(t)) && SameTerms(Settled(t), t)
    ensures Settled(t).filled == t.filled && Settled(t).filledTotal == t.filledTotal
    ensures GoesToBook(t) ==> Settled(t) == t && Rests(t, t.side, t.price)
  {
  }

  /** The opposite side before and after one order, and what became of its orders. */
  lemma OppositeSide(b: Book, o: Ord, w: Ord -> real)
    requires BookOk(b) && o.Fresh()
    ensures var s := o.side.Opposite();
      var levels := b.Of(s);
      var r, reach := Matched(o, levels), Reach(o, levels);
      && SideOk(r.levels, s) && LeavesSide(levels, r.levels, s)
      && var rest := Greedy(o, reach, o.kind == Limit).rest;
         Sum(w, Flatten(r.levels)) + Sum(w, reach) == Sum(w, Flatten(levels)) + Sum(w, rest)
  {
    hide *;
    var s := o.side.Opposite();
    var levels := b.Of(s);
    var reach := Reach(o, levels);
    FreshIsFair(o);
    SidesOf(b, o.side);
    MatchedIsGreedy(o, levels, s);
    var g := Greedy(o, reach, o.kind == Limit);
    FillsParts(Matched(o, levels), g, levels, reach, s);
    var beyond := Flatten(levels)[|reach|..];
    assert Flatten(levels) == reach + beyond;
    SumConcat(w, reach, beyond);
    SumConcat(w, g.rest, beyond);
  }

  lemma FillsParts(r: Result, g: Fills, levels: seq<Level>, reach: seq<Ord>, s: Side)
    requires FillsFrom(r, g, levels, reach, s)
    ensures reach <= Flatten(levels) && Flatten(r.levels) == g.rest + Flatten(levels)[|reach|..]
    ensures LeavesSide(levels, r.levels, s) && SideOk(r.levels, s)
  {
    hide Flatten;
  }

  /** What one submitted order adds to a sum over all orders. */
  lemma SubmitTotal(r: Run, o: Ord, w: Ord -> real)
    requires BookOk(r.book) && o.Fresh()
    ensures var reach := Reach(o, r.book.Of(o.side.Opposite()));
      var g := Greedy(o, reach, o.kind == Limit);
      Total(w, Step(r, Submit(o))) ==
        Total(w, r) + Sum(w, g.filled) + Sum(w, g.rest) - Sum(w, reach) + w(Settled(g.taker))
  {
    hide *;
    var s := o.side.Opposite();
    var levels := r.book.Of(s);
    var m := Matched(o, levels);
    SidesOf(r.book, o.side);
    OppositeSide(r.book, o, w);
    MatchedValues(o, levels, s);
    SumConcat(w, r.done, m.filled);
    SumConcat(w, r.done + m.filled, [Settled(m.taker)]);
    SumOne(w, Settled(m.taker));
    StaysOnSide(m.taker);
    TotalOn(r, o.side, w);
    if GoesToBook(m.taker) {
      AddSums(o.side, r.book.Of(o.side), m.taker, w);
      assert r.done + m.filled + [] == r.done + m.filled;
    }
    SubmitParts(r, o, w);
  }

  lemma MatchedValues(o: Ord, levels: seq<Level>, s: Side)
    requires SideOk(levels, s) && o.Fresh()
    ensures var m, g := Matched(o, levels), Greedy(o, Reach(o, levels), o.kind == Limit);
      m.taker == g.taker && m.filled == g.filled && m.trades == g.trades && m.taker.side == o.side
  {
    hide Matched, Greedy, Reach, Flatten, LeavesSide, SideOk;
    FreshIsFair(o);
    MatchedIsGreedy(o, levels, s);
    GreedyTerms(o, Reach(o, levels), o.kind == Limit);
  }

  lemma SidesOf(b: Book, s: Side)
    requires BookOk(b)
    ensures SideOk(b.Of(s), s) && SideOk(b.Of(s.Opposite()), s.Opposite())
  {
  }

  lemma StaysOnSide(t: Ord)
    ensures GoesToBook(t) ==> Settled(t) == t
  {
  }

  lemma TotalOn(r: Run, s: Side, w: Ord -> real)
    ensures Total(w, r) == Sum(w, Flatten(r.book.Of(s))) + Sum(w, Flatten(r.book.Of(s.Opposite()))) + Sum(w, r.done) +
      Sum(w, Flatten(r.strays))
  {
  }

  lemma SubmitParts(r: Run, o: Ord, w: Ord -> real)
    requires Matched(o, r.book.Of(o.side.Opposite())).taker.side == o.side
    ensures var m := Matched(o, r.book.Of(o.side.Opposite()));
      var own := r.book.Of(o.side);
      Total(w, Step(r, Submit(o))) == Sum(w, Flatten(r.strays)) + Sum(w, Flatten(m.levels)) +
        (if GoesToBook(m.taker) then Sum(w, Flatten(AddTo(o.side, own, m.taker))) + Sum(w, r.done + m.filled + [])
         else Sum(w, Flatten(own)) + Sum(w, r.done + m.filled + [Settled(m.taker)]))
  {
    hide Matched, Flatten, AddTo, Sum, Settled, GoesToBook;
  }

  lemma ReachRests(o: Ord, levels: seq<Level>, s: Side)
    requires SideOk(levels, s) && o.Fresh()
    ensures AllRest(Reach(o, levels), s) && forall x <- Reach(o, levels) :: x in Flatten(levels)
  {
    FreshIsFair(o);
    MatchedIsGreedy(o, levels, s);
    FlattenRests(levels, s);
    var reach := Reach(o, levels);
    forall x | x in reach
      ensures x in Flatten(levels)
    {
      var i :| 0 <= i < |reach| && reach[i] == x;
      assert Flatten(levels)[i] == x;
    }
  }

  /** On each side, the fills of one match add up to the volume and the value of its trades. */
  lemma MatchBooksBothSides(o: Ord, reach: seq<Ord>, s: Side)
    requires o.Fresh() && AllRest(reach, o.side.Opposite()) && forall x <- reach :: Fair(x)
    ensures var g := Greedy(o, reach, o.kind == Limit);
      var wa, wt, t := On(s, FilledAmount), On(s, FilledTotal), Settled(g.taker);
      && Sum(wa, g.filled) + Sum(wa, g.rest) - Sum(wa, reach) + wa(t) == Volume(g.trades)
      && Sum(wt, g.filled) + Sum(wt, g.rest) - Sum(wt, reach) + wt(t) == Value(g.trades)
  {
    var opp := o.side.Opposite();
    var g := Greedy(o, reach, o.kind == Limit);
    FreshIsFair(o);
    GreedyBooksTwice(o, reach, o.kind == Limit);
    GreedyTerms(o, reach, o.kind == Limit);
    GreedyOrders(o, reach, o.kind == Limit, opp);
    SettledTerms(g.taker);
    var t := Settled(g.taker);
    OnOne(s, t);
    hide Greedy, Sum;
    SumOn(s, FilledAmount, g.filled, opp);
    SumOn(s, FilledAmount, g.rest, opp);
    SumOn(s, FilledAmount, reach, opp);
    SumOn(s, FilledTotal, g.filled, opp);
    SumOn(s, FilledTotal, g.rest, opp);
    SumOn(s, FilledTotal, reach, opp);
  }

  lemma SubmitTrades(r: Run, o: Ord)
    requires BookOk(r.book) && o.Fresh()
    ensures var levels := r.book.Of(o.side.Opposite());
      Step(r, Submit(o)).trades == r.trades + Greedy(o, Reach(o, levels), o.kind == Limit).trades
  {
    FreshIsFair(o);
    MatchedIsGreedy(o, r.book.Of(o.side.Opposite()), o.side.Opposite());
    hide Greedy, Reach, AddTo, Flatten;
  }

  /** The market stays balanced: both sides gain the volume and the value of the new trades. */
  lemma SubmitBalanced(r: Run, o: Ord)
    requires Inv(r) && o.Fresh()
    ensures Balanced(Step(r, Submit(o)))
  {
    hide *;
    var opp := o.side.Opposite();
    var reach := Reach(o, r.book.Of(opp));
    var g := Greedy(o, reach, o.kind == Limit);
    InvParts(r, opp);
    ReachRests(o, r.book.Of(opp), opp);
    SubmitTrades(r, o);
    TradesConcat(r.trades, g.trades);
    forall s: Side
      ensures BalancedOn(Step(r, Submit(o)), s)
    {
      SubmitTotal(r, o, On(s, FilledAmount));
      SubmitTotal(r, o, On(s, FilledTotal));
      MatchBooksBothSides(o, reach, s);
      BalancedParts(r, s);
      BalancedParts(Step(r, Submit(o)), s);
    }
    BothBalanced(Step(r, Submit(o)));
  }

  lemma BalancedParts(r: Run, s: Side)
    ensures Inv(r) ==> BalancedOn(r, s)
    ensures BalancedOn(r, s) <==>
      Total(On(s, FilledAmount), r) == Volume(r.trades) && Total(On(s, FilledTotal), r) == Value(r.trades)
  {
  }

  lemma BothBalanced(r: Run)
    requires forall s: Side :: BalancedOn(r, s)
    ensures Balanced(r)
  {
  }

  lemma {:induction false} FlattenAdd(s: Side, levels: seq<Level>, o: Ord)
    requires SideOk(levels, s)
    ensures forall x <- Flatten(AddTo(s, levels, o)) :: x == o || x in Flatten(levels)
  {
    var front, at, back := AddSplits(s, levels, o);
    FlattenThree(front, Append(at, o), back, Remain);
    if HasPrice(s, levels, o.price) { FlattenThree(front, at, back, Remain); } else { FlattenConcat(front, back); }
  }

  /** Every order keeps its own books, and the book stays well-formed. */
  lemma SubmitKept(r: Run, o: Ord)
    requires Inv(r) && o.Fresh()
    ensures BookOk(Step(r, Submit(o)).book) && AllKept(Step(r, Submit(o)))
  {
    hide *;
    var opp := o.side.Opposite();
    var levels := r.book.Of(opp);
    var m := Matched(o, levels);
    InvParts(r, opp);
    InvParts(r, o.side);
    MatchedOrders(o, levels, opp);
    SettledTerms(m.taker);
    OwnSide(o, m.taker);
    if GoesToBook(m.taker) {
      AddIsOk(o.side, r.book.Of(o.side), m.taker);
      FlattenAdd(o.side, r.book.Of(o.side), m.taker);
    }
    AfterSubmit(r, o);
  }

  lemma OwnSide(o: Ord, t: Ord)
    requires SameTerms(t, o)
    ensures t.side == o.side && t.kind == o.kind
  {
  }

  /** Once both sides and the taker are in order, so is everything after the step. */
  lemma AfterSubmit(r: Run, o: Ord)
    requires BookOk(r.book) && AllKept(r)
    requires var s := o.side.Opposite();
      var m := Matched(o, r.book.Of(s));
      && SideOk(m.levels, s) && (forall x <- m.filled :: x.Kept() && Fair(x))
      && (forall x <- Flatten(m.levels) :: Fair(x))
      && m.taker.side == o.side && Settled(m.taker).Kept() && Fair(Settled(m.taker))
      && (GoesToBook(m.taker) ==> m.taker == Settled(m.taker))
      && (GoesToBook(m.taker) ==> var own := r.book.Of(o.side);
            SideOk(AddTo(o.side, own, m.taker), o.side) &&
            forall x <- Flatten(AddTo(o.side, own, m.taker)) :: x == m.taker || x in Flatten(own))
    ensures BookOk(Step(r, Submit(o)).book) && AllKept(Step(r, Submit(o)))
  {
    hide Matched, Flatten, Fair, Ord.Kept, AddTo, SideOk, Settled, GoesToBook;
  }

  /** What a match leaves of the orders on the other side, and of the taker. */
  lemma MatchedOrders(o: Ord, levels: seq<Level>, s: Side)
    requires SideOk(levels, s) && s == o.side.Opposite() && o.Fresh() && forall x <- Flatten(levels) :: Fair(x)
    ensures var m := Matched(o, levels);
      && SideOk(m.levels, s) && m.taker.Kept() && Fair(m.taker) && SameTerms(m.taker, o)
      && (forall x <- m.filled :: x.Kept() && Fair(x)) && (forall x <- Flatten(m.levels) :: Fair(x))
  {
    var reach := Reach(o, levels);
    FreshIsFair(o);
    ReachRests(o, levels, s);
    MatchedIsGreedy(o, levels, s);
    GreedyTerms(o, reach, o.kind == Limit);
    GreedyOrders(o, reach, o.kind == Limit, s);
    assert forall x <- Flatten(levels)[|reach|..] :: x in Flatten(levels);
    hide Greedy, Matched, Reach, Fair, Ord.Kept, Flatten;
  }

  lemma HasIdConcat(a: seq<Ord>, b: seq<Ord>, id: nat)
    ensures HasId(a + b, id) <==> HasId(a, id) || HasId(b, id)
  {
    if HasId(a, id) {
      var o :| o in a && o.id == id;
      assert o in a + b;
    }
    if HasId(b, id) {
      var o :| o in b && o.id == id;
      assert o in a + b;
    }
  }

  lemma {:induction false} FlattenIds(levels: seq<Level>, id: nat)
    ensures HasId(Flatten(levels), id) <==> SideHas(levels, id)
  {
    if levels != [] {
      FlattenIds(levels[1..], id);
      HasIdConcat(levels[0].queue, Flatten(levels[1..]), id);
      assert levels[0] in levels && forall l <- levels[1..] :: l in levels;
      assert forall l <- levels :: l == levels[0] || l in levels[1..];
    }
  }

  /** A greedy fill keeps all IDs, among what is filled and what is left. */
  lemma {:induction false} GreedyIds(taker: Ord, flat: seq<Ord>, priced: bool, id: nat)
    ensures var g := Greedy(taker, flat, priced); HasId(flat, id) <==> HasId(g.filled, id) || HasId(g.rest, id)
    decreases |flat|
  {
    hide Cost, HasId;
    if taker.remain > 0.0 && flat != [] && Accepts(taker, priced, flat[0].price) {
      var price, amt := flat[0].price, Min(taker.remain, flat[0].remain);
      var t, m := taker.Fill(amt, Cost(price, amt)), flat[0].Fill(amt, Cost(price, amt));
      assert flat == [flat[0]] + flat[1..];
      HasIdConcat([flat[0]], flat[1..], id);
      SameId(m, flat[0], id);
      if m.remain == 0.0 {
        var g := Greedy(t, flat[1..], priced);
        GreedyIds(t, flat[1..], priced, id);
        HasIdConcat([m], g.filled, id);
      } else {
        HasIdConcat([m], flat[1..], id);
        NobodyIn(id);
      }
    } else {
      NobodyIn(id);
    }
  }

  lemma SameId(a: Ord, b: Ord, id: nat)
    requires a.id == b.id
    ensures HasId([a], id) <==> HasId([b], id)
  {
    assert a in [a] && b in [b];
  }

  /** Whoever was on the other side before a match is there afterwards or has been filled, and nobody else. */
  lemma MatchedIds(o: Ord, levels: seq<Level>, s: Side, id: nat)
    requires SideOk(levels, s) && o.Fresh()
    ensures var m := Matched(o, levels); SideHas(levels, id) <==> SideHas(m.levels, id) || HasId(m.filled, id)
  {
    hide *;
    var m, reach := Matched(o, levels), Reach(o, levels);
    var g := Greedy(o, reach, o.kind == Limit);
    FreshIsFair(o);
    MatchedIsGreedy(o, levels, s);
    FillsParts(m, g, levels, reach, s);
    MatchedValues(o, levels, s);
    GreedyIds(o, reach, o.kind == Limit, id);
    var beyond := Flatten(levels)[|reach|..];
    assert Flatten(levels) == reach + beyond;
    HasIdConcat(reach, beyond, id);
    HasIdConcat(g.rest, beyond, id);
    FlattenIds(levels, id);
    FlattenIds(m.levels, id);
  }

  lemma FilledOnSide(o: Ord, levels: seq<Level>, s: Side)
    requires SideOk(levels, s) && o.Fresh() && s == o.side.Opposite()
    ensures forall x <- Matched(o, levels).filled :: x.side == s
  {
    FreshIsFair(o);
    ReachRests(o, levels, s);
    MatchedValues(o, levels, s);
    FilledSide(o, Reach(o, levels), o.kind == Limit, s);
  }

  lemma {:induction false} FlattenHas(levels: seq<Level>, i: nat, o: Ord)
    requires i < |levels| && o in levels[i].queue
    ensures o in Flatten(levels)
  {
    if i > 0 { FlattenHas(levels[1..], i - 1, o); }
  }

  lemma {:induction false} FlattenFrom(levels: seq<Level>, o: Ord) returns (i: nat)
    requires o in Flatten(levels)
    ensures i < |levels| && o in levels[i].queue
  {
    if o in levels[0].queue {
      i := 0;
    } else {
      i := FlattenFrom(levels[1..], o);
      i := i + 1;
    }
  }

  /** Cancelling only takes orders away. */
  lemma CancelMembers(levels: seq<Level>, id: nat)
    requires SideHas(levels, id)
    ensures Resting(levels, id) in Flatten(levels)
    ensures forall x <- Flatten(CancelIn(levels, id)) :: x in Flatten(levels)
  {
    hide *;
    var k := FirstWith(levels, id);
    CancelAt(levels, id, k);
    RemoveSums(levels[k].queue, id, Remain);
    RemovedParts(levels[k], id);
    FlattenHas(levels, k, Resting(levels, id));
    var c := CancelIn(levels, id);
    forall x | x in Flatten(c)
      ensures x in Flatten(levels)
    {
      var i := FlattenFrom(c, x);
      var j := if i < k then i else if RemoveFromLevel(levels[k], id).queue == [] then i + 1 else i;
      assert x in levels[j].queue;
      FlattenHas(levels, j, x);
    }
  }

  /** A weight that does not look at an order's status. */
  ghost predicate Unmarked(w: Ord -> real) {
    forall a, b :: SameTerms(a, b) && a.filled == b.filled && a.filledTotal == b.filledTotal ==> w(a) == w(b)
  }

  /** What every cancel keeps: a well-formed book, every order's own books, and all sums over all orders. */
  ghost predicate Keeps(w: Ord -> real, r: Run, r': Run) {
    BookOk(r'.book) && AllKept(r') && Total(w, r') == Total(w, r) && r'.trades == r.trades
  }

  lemma KeepsIff(w: Ord -> real, r: Run, r': Run)
    ensures Keeps(w, r, r') <==>
      BookOk(r'.book) && AllKept(r') && Total(w, r') == Total(w, r) && r'.trades == r.trades
  {
  }

  lemma TakeOutKeeps(r: Run, id: nat, s: Side, w: Ord -> real)
    requires BookOk(r.book) && AllKept(r) && SideHas(r.book.Of(s), id) && Unmarked(w)
    ensures Keeps(w, r, TakeOut(r, id, s))
  {
    hide *;
    var levels := r.book.Of(s);
    var o, left := Resting(levels, id), CancelIn(levels, id);
    var c := o.(status := Cancelled);
    SidesOf(r.book, s);
    CancelKeeps(levels, id, s, w);
    CancelMembers(levels, id);
    SameOrder(o, Cancelled, w);
    SumConcat(w, r.done, [c]);
    SumOne(w, c);
    RestsIsKept(o, s);
    FairWithin(r, s, o);
    FairCancelled(o);
    TotalOn(r, s, w);
    TotalOn(TakeOut(r, id, s), s, w);
    TakenOut(r, id, s);
    KeptWith(r, TakeOut(r, id, s), s, left);
    KeepsIff(w, r, TakeOut(r, id, s));
  }

  lemma FairWithin(r: Run, s: Side, o: Ord)
    requires AllKept(r) && o in Flatten(r.book.Of(s))
    ensures Fair(o)
  {
  }

  lemma TakenOut(r: Run, id: nat, s: Side)
    requires SideHas(r.book.Of(s), id)
    ensures var t, left := TakeOut(r, id, s), CancelIn(r.book.Of(s), id);
      && t.book == r.book.With(s, left) && t.book.Of(s) == left && t.book.Of(s.Opposite()) == r.book.Of(s.Opposite())
      && t.done == r.done + [Resting(r.book.Of(s), id).(status := Cancelled)] && t.trades == r.trades
      && t.strays == r.strays
  {
  }

  lemma InvParts(r: Run, s: Side)
    requires Inv(r)
    ensures SideOk(r.book.Of(s), s) && AllKept(r) && BookOk(r.book) && r.book.With(s, r.book.Of(s)) == r.book
    ensures forall o <- Flatten(r.book.Of(s)) :: Fair(o)
  {
  }

  lemma SameOrder(o: Ord, status: Status, w: Ord -> real)
    requires Unmarked(w)
    ensures w(o.(status := status)) == w(o)
  {
    assert SameTerms(o.(status := status), o);
  }

  lemma SumOne(w: Ord -> real, o: Ord)
    ensures Sum(w, [o]) == w(o)
  {
  }

  lemma RestsIsKept(o: Ord, s: Side)
    requires Rests(o, s, o.price)
    ensures o.Kept()
  {
  }

  lemma StepIs(r: Run, o: Ord)
    ensures Step(r, Submit(o)).book == Process(r.book, o).book
  {
  }

  lemma KeptWith(r: Run, r': Run, s: Side, levels: seq<Level>)
    requires AllKept(r) && BookOk(r.book) && SideOk(levels, s) && r'.book == r.book.With(s, levels)
    requires forall x <- Flatten(levels) :: x in Flatten(r.book.Of(s))
    requires forall x <- r'.done :: x in r.done || (x.Kept() && Fair(x))
    requires forall x <- Flatten(r'.strays) :: x in Flatten(r.strays) || Strays(x)
    ensures BookOk(r'.book) && AllKept(r')
  {
    hide Fair, Ord.Kept, Flatten, Strays;
  }

  lemma FairCancelled(o: Ord)
    requires o.Kept() && Fair(o)
    ensures o.(status := Cancelled).Kept() && Fair(o.(status := Cancelled))
  {
  }

  /** Cancelling an order of a stray level. */
  lemma TakeStrayKeeps(r: Run, id: nat, w: Ord -> real)
    requires BookOk(r.book) && AllKept(r) && SideHas(r.strays, id) && Unmarked(w)
    ensures Keeps(w, r, TakeStray(r, id))
  {
    hide *;
    var k, r' := FirstWith(r.strays, id), TakeStray(r, id);
    var l := r.strays[k];
    var o, l' := Find(l.queue, id), RemoveFromLevel(l, id);
    var c := o.(status := Cancelled);
    TakenStray(r, id);
    RemovedParts(l, id);
    RemoveSums(l.queue, id, w);
    Around(r.strays, k, l');
    FlattenThree(r.strays[..k], l, r.strays[k + 1..], w);
    FlattenThree(r.strays[..k], l', r.strays[k + 1..], w);
    FairAstray(r, o);
    FairCancelled(o);
    SameOrder(o, Cancelled, w);
    SumConcat(w, r.done, [c]);
    SumOne(w, c);
    TotalOn(r, Buy, w);
    TotalOn(r', Buy, w);
    SidesOf(r.book, Buy);
    SameSide(r.book, Buy);
    KeptWith(r, r', Buy, r.book.Of(Buy));
    KeepsIff(w, r, r');
  }

  lemma SameSide(b: Book, s: Side)
    ensures b.With(s, b.Of(s)) == b
  {
  }

  lemma FairAstray(r: Run, o: Ord)
    requires AllKept(r) && o in Flatten(r.strays)
    ensures o.Kept() && Fair(o)
  {
  }

  lemma TakenStray(r: Run, id: nat)
    requires SideHas(r.strays, id)
    ensures var t, k := TakeStray(r, id), FirstWith(r.strays, id);
      && k < |r.strays| && HasId(r.strays[k].queue, id)
      && t.book == r.book && t.trades == r.trades && t.strays == r.strays[k := RemoveFromLevel(r.strays[k], id)]
      && t.done == r.done + [Find(r.strays[k].queue, id).(status := Cancelled)]
  {
  }

  /** Taking a level out of its tree makes its orders stray; none disappears. */
  lemma LoseLevelKeeps(r: Run, s: Side, price: real, w: Ord -> real)
    requires BookOk(r.book) && AllKept(r)
    ensures Keeps(w, r, LoseLevel(r, s, price))
  {
    hide *;
    var r', ls, k := LoseLevel(r, s, price), r.book.Of(s), PlaceOf(s, r.book.Of(s), price);
    LostParts(r, s, price);
    SidesOf(r.book, s);
    if HasPrice(s, ls, price) {
      AddedStray(r, s, k, w);
      DropIsOk(ls, k, s);
      KeptWith(r, r', s, ls[..k] + ls[k + 1..]);
    }
    TotalOn(r, s, w);
    TotalOn(r', s, w);
    KeepsIff(w, r, r');
  }

  lemma LostParts(r: Run, s: Side, price: real)
    ensures var t, ls, k := LoseLevel(r, s, price), r.book.Of(s), PlaceOf(s, r.book.Of(s), price);
      if HasPrice(s, ls, price) then
        && k < |ls| && t.book == r.book.With(s, ls[..k] + ls[k + 1..])
        && t.book.Of(s) == ls[..k] + ls[k + 1..] && t.book.Of(s.Opposite()) == r.book.Of(s.Opposite())
        && t.done == r.done && t.trades == r.trades && t.strays == r.strays + [ls[k]]
      else t == r
  {
  }

  lemma AddedStray(r: Run, s: Side, k: nat, w: Ord -> real)
    requires AllKept(r) && BookOk(r.book) && k < |r.book.Of(s)|
    ensures var ls, strays := r.book.Of(s), r.strays + [r.book.Of(s)[k]];
      var left := ls[..k] + ls[k + 1..];
      && Sum(w, Flatten(left)) + Sum(w, Flatten(strays)) == Sum(w, Flatten(ls)) + Sum(w, Flatten(r.strays))
      && (forall x <- Flatten(left) :: x in Flatten(ls))
      && (forall x <- Flatten(strays) :: x in Flatten(r.strays) || Strays(x))
  {
    var ls := r.book.Of(s);
    hide *;
    Around(ls, k, ls[k]);
    FlattenThree(ls[..k], ls[k], ls[k + 1..], w);
    FlattenConcat(ls[..k], ls[k + 1..]);
    SumConcat(w, Flatten(ls[..k]), Flatten(ls[k + 1..]));
    FlattenConcat(r.strays, [ls[k]]);
    FlattenOne(ls[k]);
    SumConcat(w, Flatten(r.strays), ls[k].queue);
    forall x | x in ls[k].queue
      ensures Strays(x)
    {
      FlattenHas(ls, k, x);
      FairWithin(r, s, x);
      SidesOf(r.book, s);
      InLevel(ls, k, s, x);
    }
  }

  lemma FlattenOne(l: Level)
    ensures Flatten([l]) == l.queue
  {
  }

  lemma InLevel(ls: seq<Level>, k: nat, s: Side, o: Ord)
    requires SideOk(ls, s) && k < |ls| && o in ls[k].queue && Fair(o)
    ensures Strays(o)
  {
    assert ls[k] in ls;
  }

  lemma DropIsOk(ls: seq<Level>, k: nat, s: Side)
    requires SideOk(ls, s) && k < |ls|
    ensures SideOk(ls[..k] + ls[k + 1..], s)
  {
    Around(ls, k, ls[k]);
    CancelIsOk(ls[..k], ls[k], ls[k].(queue := []), ls[k + 1..], s);
    assert ls[..k] + [] + ls[k + 1..] == ls[..k] + ls[k + 1..];
  }

  /** As long as a level that was taken out of its tree has orders, cancelling an order that was filled there does no
      harm, whatever is submitted in between and comes to rest at the same price. */
  lemma StrayIsHarmless(r: Run, s: Side, price: real, id: nat, o: Ord)
    requires BookOk(r.book) && HasPrice(s, r.book.Of(s), price) && id in r.spent && !InUse(r, id)
    requires r.spent[id] == Spot(s, price, Standing) && o.Fresh() && o.id != id
    ensures Harmless(LoseLevel(r, s, price), Withdraw(id))
    ensures Harmless(Step(LoseLevel(r, s, price), Submit(o)), Withdraw(id))
  {
    hide *;
    var ls, k, lost := r.book.Of(s), PlaceOf(s, r.book.Of(s), price), LoseLevel(r, s, price);
    var x := Spot(s, price, Astray(|r.strays|));
    SidesOf(r.book, s);
    LostParts(r, s, price);
    LevelOfSide(s, ls, k);
    NobodyInLevel(r, s, k, id);
    LostSpot(r, s, price, id);
    AstrayStands(lost, id, x);
    DropIsOk(ls, k, s);
    BookWithout(r.book, lost.book, s);
    OnNeither(lost.book, s, o.side.Opposite(), id);
    NotFilled(lost, o, id);
    StaysAstray(lost, o, id, x);
    AstrayStands(Step(lost, Submit(o)), id, x);
  }

  lemma OnNeither(b: Book, s: Side, t: Side, id: nat)
    requires !SideHas(b.Of(s), id) && !SideHas(b.Of(s.Opposite()), id)
    ensures !SideHas(b.Of(t), id)
  {
    hide SideHas;
  }

  lemma BookWithout(b: Book, c: Book, s: Side)
    requires BookOk(b) && SideOk(c.Of(s), s) && c.Of(s.Opposite()) == b.Of(s.Opposite())
    ensures BookOk(c)
  {
  }

  lemma LostSpot(r: Run, s: Side, price: real, id: nat)
    requires HasPrice(s, r.book.Of(s), price) && id in r.spent && r.spent[id] == Spot(s, price, Standing)
    ensures var lost := LoseLevel(r, s, price); id in lost.spent && lost.spent[id] == Spot(s, price, Astray(|r.strays|))
  {
    hide HasPrice, PlaceOf, DropPrice;
  }

  lemma NobodyInLevel(r: Run, s: Side, k: nat, id: nat)
    requires k < |r.book.Of(s)| && !InUse(r, id)
    ensures var ls := r.book.Of(s);
      && !SideHas(ls[..k] + ls[k + 1..], id) && !SideHas(r.book.Of(s.Opposite()), id)
      && !SideHas(r.strays + [ls[k]], id)
  {
    hide HasId;
    var ls := r.book.Of(s);
    assert ls[k] in ls && forall l <- ls[..k] + ls[k + 1..] :: l in ls;
  }

  /** A filled order whose level is stray and has orders. */
  lemma AstrayStands(r: Run, id: nat, x: Spot)
    requires id in r.spent && r.spent[id] == x && x.home.Astray? && x.home.n < |r.strays|
    requires r.strays[x.home.n].queue != [] && !SideHas(r.strays, id)
    ensures Harmless(r, Withdraw(id))
  {
    hide SideHas, HasPrice, StraySpot, TakeStray;
  }

  lemma NotFilled(r: Run, o: Ord, id: nat)
    requires BookOk(r.book) && o.Fresh() && !SideHas(r.book.Of(o.side.Opposite()), id)
    ensures !HasId(Process(r.book, o).filled, id)
  {
    var s := o.side.Opposite();
    SidesOf(r.book, o.side);
    MatchedIds(o, r.book.Of(s), s, id);
    hide Matched, SideHas, HasId;
  }

  lemma StaysAstray(r: Run, o: Ord, id: nat, x: Spot)
    requires id in r.spent && r.spent[id] == x && x.home.Astray? && o.id != id && !HasId(Process(r.book, o).filled, id)
    ensures var r' := Step(r, Submit(o)); r'.strays == r.strays && id in r'.spent && r'.spent[id] == x
  {
    hide Process;
  }

  /** What a cancel does, case by case. */
  lemma WithdrawCases(r: Run, id: nat)
    ensures var r', bid, ask := Step(r, Withdraw(id)), SideHas(r.book.Of(Buy), id), SideHas(r.book.Of(Sell), id);
      && (bid ==> r' == TakeOut(r, id, Buy)) && (!bid && ask ==> r' == TakeOut(r, id, Sell))
      && (!bid && !ask && SideHas(r.strays, id) ==>
           var x := StraySpot(r, id);
           r' == TakeStray(r, id) || r' == LoseLevel(TakeStray(r, id), x.side, x.price))
      && (!bid && !ask && !SideHas(r.strays, id) ==>
           r' == r || r' == ForgetSpent(r, id) ||
           (id in r.spent && r' == LoseLevel(ForgetSpent(r, id), r.spent[id].side, r.spent[id].price)))
  {
    hide TakeOut, TakeStray, LoseLevel, ForgetSpent, IsEmptied, StraySpot, SideHas;
  }

  lemma ForgottenBook(r: Run, id: nat)
    ensures ForgetSpent(r, id).book == r.book
  {
  }

  lemma NothingKeeps(r: Run, id: nat, w: Ord -> real)
    requires BookOk(r.book) && AllKept(r)
    ensures Keeps(w, r, r) && Keeps(w, r, ForgetSpent(r, id))
  {
  }

  lemma KeepsTwice(w: Ord -> real, a: Run, b: Run, c: Run)
    requires Keeps(w, a, b) && Keeps(w, b, c)
    ensures Keeps(w, a, c)
  {
  }

  /** A cancel, whatever ID it names, makes no order disappear. */
  lemma WithdrawTotal(r: Run, id: nat, w: Ord -> real)
    requires BookOk(r.book) && AllKept(r) && Unmarked(w)
    ensures Keeps(w, r, Step(r, Withdraw(id)))
  {
    hide *;
    WithdrawCases(r, id);
    if SideHas(r.book.Of(Buy), id) {
      TakeOutKeeps(r, id, Buy, w);
    } else if SideHas(r.book.Of(Sell), id) {
      TakeOutKeeps(r, id, Sell, w);
    } else if SideHas(r.strays, id) {
      var next, x := TakeStray(r, id), StraySpot(r, id);
      TakeStrayKeeps(r, id, w);
      KeepsIff(w, r, next);
      LoseLevelKeeps(next, x.side, x.price, w);
      KeepsTwice(w, r, next, LoseLevel(next, x.side, x.price));
    } else {
      var next := ForgetSpent(r, id);
      NothingKeeps(r, id, w);
      KeepsIff(w, r, next);
      if id in r.spent {
        var x := r.spent[id];
        LoseLevelKeeps(next, x.side, x.price, w);
        KeepsTwice(w, r, next, LoseLevel(next, x.side, x.price));
      }
    }
  }

  lemma WithdrawKeeps(r: Run, id: nat)
    requires Inv(r)
    ensures Inv(Step(r, Withdraw(id)))
  {
    hide *;
    var r' := Step(r, Withdraw(id));
    InvParts(r, Buy);
    forall s: Side
      ensures BalancedOn(r', s)
    {
      OnIgnoresStatus(s);
      WithdrawTotal(r, id, On(s, FilledAmount));
      WithdrawTotal(r, id, On(s, FilledTotal));
      KeepsIff(On(s, FilledAmount), r, r');
      KeepsIff(On(s, FilledTotal), r, r');
      BalancedParts(r, s);
      BalancedParts(r', s);
    }
    BothBalanced(r');
    OnIgnoresStatus(Buy);
    WithdrawTotal(r, id, On(Buy, FilledAmount));
    KeepsIff(On(Buy, FilledAmount), r, r');
    IsInv(r');
  }

  lemma BothSides(b: Book)
    ensures b.Of(Buy) == b.bids && b.Of(Sell) == b.asks
  {
  }

  lemma IsInv(r: Run)
    requires BookOk(r.book) && AllKept(r) && Balanced(r)
    ensures Inv(r)
  {
  }

  lemma OnIgnoresStatus(s: Side)
    ensures Unmarked(On(s, FilledAmount)) && Unmarked(On(s, FilledTotal))
  {
    forall a, b | SameTerms(a, b) && a.filled == b.filled && a.filledTotal == b.filledTotal
      ensures On(s, FilledAmount)(a) == On(s, FilledAmount)(b) && On(s, FilledTotal)(a) == On(s, FilledTotal)(b)
    {
      OnOne(s, a);
      OnOne(s, b);
    }
  }

  // ------------------------------------------------------------------ every run

  /** In every run, whatever it cancels: the book is well-formed, every order's books are kept, and the two sides have
      filled the same. */
  lemma {:induction false} RunKeepsInvariant(r: Run, log: seq<Cmd>)
    requires Inv(r) && Admitted(r, log)
    ensures Inv(After(r, log))
    decreases |log|
  {
    if log != [] {
      StepKeepsInvariant(r, log[0]);
      hide Step, Inv;
      RunKeepsInvariant(Step(r, log[0]), log[1..]);
    }
  }

  lemma StepKeepsInvariant(r: Run, c: Cmd)
    requires Inv(r) && Admissible(r, c)
    ensures Inv(Step(r, c))
  {
    hide Inv, Step, Ord.Fresh;
    match c {
      case Submit(o) =>
        SubmitBalanced(r, o);
        SubmitKept(r, o);
        IsInv(Step(r, c));
      case Withdraw(id) => WithdrawKeeps(r, id);
    }
  }

  lemma StartIsKept()
    ensures Inv(Start)
  {
  }

  // ------------------------------------------------------------------ where every order is

  function Submitted(log: seq<Cmd>): seq<Ord> {
    if log == [] then [] else (if log[0].Submit? then [log[0].o] else []) + Submitted(log[1..])
  }

  /** A weight that looks only at what fills and status changes leave alone: identity, owner, side, price, amount. */
  ghost predicate Permanent(w: Ord -> real) { forall a, b :: SameTerms(a, b) ==> w(a) == w(b) }

  /** After any run, the orders in the book, those done with and those in stray levels are exactly the submitted ones:
      whatever is permanent about orders, such as how many carry a given ID, adds up to the same. */
  lemma {:induction false} EveryOrderIsSomewhere(r: Run, log: seq<Cmd>, w: Ord -> real)
    requires Inv(r) && Permanent(w) && Admitted(r, log)
    ensures Total(w, After(r, log)) == Total(w, r) + Sum(w, Submitted(log))
    decreases |log|
  {
    if log != [] {
      var next := Step(r, log[0]);
      StepKeepsInvariant(r, log[0]);
      StepTotal(r, log[0], w);
      hide Step, Inv, Permanent, Total;
      EveryOrderIsSomewhere(next, log[1..], w);
      if log[0].Submit? {
        SumConcat(w, [log[0].o], Submitted(log[1..]));
        SumOne(w, log[0].o);
      } else {
        assert Submitted(log) == Submitted(log[1..]);
      }
    }
  }

  lemma StepTotal(r: Run, c: Cmd, w: Ord -> real)
    requires Inv(r) && Permanent(w) && Admissible(r, c)
    ensures Total(w, Step(r, c)) == Total(w, r) + if c.Submit? then w(c.o) else 0.0
  {
    hide Step, Total, AllKept, BookOk, Balanced, Keeps, Ord.Fresh;
    match c {
      case Submit(o) => SubmitLosesNothing(r, o, w);
      case Withdraw(id) =>
        PermanentIsUnmarked(w);
        WithdrawTotal(r, id, w);
        KeepsIff(w, r, Step(r, c));
    }
  }

  lemma PermanentIsUnmarked(w: Ord -> real)
    requires Permanent(w)
    ensures Unmarked(w)
  {
  }

  lemma SubmitLosesNothing(r: Run, o: Ord, w: Ord -> real)
    requires Inv(r) && Permanent(w) && o.Fresh()
    ensures Total(w, Step(r, Submit(o))) == Total(w, r) + w(o)
  {
    var reach := Reach(o, r.book.Of(o.side.Opposite()));
    SubmitTotal(r, o, w);
    GreedyKeepsOrders(o, reach, o.kind == Limit, w);
    GreedyTerms(o, reach, o.kind == Limit);
    hide Greedy, Reach;
    assert SameTerms(Settled(Greedy(o, reach, o.kind == Limit).taker), o);
  }

  // ------------------------------------------------------------------ when no order is lost

  /** Does this step leave every level with orders in its tree? It does unless it cancels an order that the index finds,
      whose own level has become empty, while another level stands at the same price. */
  predicate Harmless(r: Run, c: Cmd) {
    c.Withdraw? && !SideHas(r.book.bids, c.id) && !SideHas(r.book.asks, c.id) ==>
      && (SideHas(r.strays, c.id) ==>
           var x := StraySpot(r, c.id);
           IsEmptied(TakeStray(r, c.id), x) ==> !HasPrice(x.side, r.book.Of(x.side), x.price))
      && (!SideHas(r.strays, c.id) && c.id in r.spent ==>
           var x := r.spent[c.id];
           IsEmptied(r, x) ==> !HasPrice(x.side, r.book.Of(x.side), x.price))
  }

  /** A log each of whose cancels is harmless when its turn comes. */
  predicate Careful(r: Run, log: seq<Cmd>)
    decreases |log|
  {
    log == [] || (Harmless(r, log[0]) && Careful(Step(r, log[0]), log[1..]))
  }

  /** The orders in the book and those done with are exactly those from before and the submitted ones. */
  ghost predicate NoneLost(r: Run, log: seq<Cmd>) {
    forall w: Ord -> real :: Permanent(w) ==> Present(w, After(r, log)) == Present(w, r) + Sum(w, Submitted(log))
  }

  function One(o: Ord): real { 1.0 }

  lemma {:induction false} CountIsLength(os: seq<Ord>)
    ensures Sum(One, os) == |os| as real
  {
    if os != [] { CountIsLength(os[1..]); }
  }

  /** A harmless step makes no level stray; any other makes one with orders in it stray. */
  lemma StraysOfStep(r: Run, c: Cmd)
    requires BookOk(r.book) && r.strays == []
    ensures Harmless(r, c) ==> Step(r, c).strays == []
    ensures !Harmless(r, c) ==> Flatten(Step(r, c).strays) != []
  {
    hide Flatten, CancelIn, Process, Swept, FilledSpots, DropPrice;
    assert !c.Submit? ==> !SideHas(r.strays, c.id);
    if !Harmless(r, c) {
      var x := r.spent[c.id];
      var ls := r.book.Of(x.side);
      var k := PlaceOf(x.side, ls, x.price);
      LostParts(ForgetSpent(r, c.id), x.side, x.price);
      SidesOf(r.book, x.side);
      LevelOfSide(x.side, ls, k);
      assert [] + [ls[k]] == [ls[k]];
      FlattenOne(ls[k]);
    }
  }

  lemma NoneLostOneStep(r: Run, c: Cmd)
    requires Inv(r) && r.strays == [] && Admissible(r, c)
    ensures NoneLost(r, [c]) <==> Harmless(r, c)
  {
    hide *;
    AdmittedOne(r, c);
    InvParts(r, Buy);
    StraysOfStep(r, c);
    var next := Step(r, c);
    forall w: Ord -> real | Permanent(w)
      ensures Present(w, next) + Sum(w, Flatten(next.strays)) == Present(w, r) + Sum(w, Submitted([c]))
    {
      EveryOrderIsSomewhere(r, [c], w);
      TotalIs(w, r);
      TotalIs(w, next);
    }
    if Harmless(r, c) {
      NoStrays();
      NoneLostIff(r, [c]);
    } else {
      OneIsPermanent();
      CountIsLength(Flatten(next.strays));
      NoneLostIff(r, [c]);
    }
  }

  lemma AdmittedOne(r: Run, c: Cmd)
    requires Admissible(r, c)
    ensures Admitted(r, [c]) && After(r, [c]) == Step(r, c)
  {
    hide Step, Admissible;
    assert [c][1..] == [];
  }

  lemma TotalIs(w: Ord -> real, r: Run)
    ensures Total(w, r) == Present(w, r) + Sum(w, Flatten(r.strays))
    ensures r.strays == [] ==> Total(w, r) == Present(w, r)
  {
  }

  lemma NoStrays()
    ensures forall w :: Sum(w, Flatten([])) == 0.0
  {
  }

  lemma OneIsPermanent()
    ensures Permanent(One)
  {
  }

  lemma NoneLostIff(r: Run, log: seq<Cmd>)
    ensures NoneLost(r, log) <==> forall w: Ord -> real :: Permanent(w) ==>
      Present(w, After(r, log)) == Present(w, r) + Sum(w, Submitted(log))
  {
  }

  /** No order is lost on the way, after any number of steps. */
  ghost predicate NeverLost(r: Run, log: seq<Cmd>) { forall k: nat :: k <= |log| ==> NoneLost(r, log[..k]) }

  /** No order is lost on the way, exactly if every cancel is harmless when its turn comes. */
  lemma {:induction false} NoOrderIsLostIff(r: Run, log: seq<Cmd>)
    requires Inv(r) && r.strays == [] && Admitted(r, log)
    ensures Careful(r, log) <==> NeverLost(r, log)
    decreases |log|
  {
    hide *;
    if log == [] {
      NothingEverLost(r);
    } else {
      var c, next := log[0], Step(r, log[0]);
      assert log == [c] + log[1..];
      LogSplits(r, c, log[1..]);
      NoneLostOneStep(r, c);
      LostAtOnce(r, c, log[1..]);
      if Harmless(r, c) {
        InvParts(r, Buy);
        StraysOfStep(r, c);
        StepKeepsInvariant(r, c);
        NoOrderIsLostIff(next, log[1..]);
        NeverLostSplits(r, c, log[1..]);
      }
    }
  }

  lemma NothingEverLost(r: Run)
    ensures Careful(r, []) && NeverLost(r, [])
  {
    var none: seq<Cmd> := [];
    NothingLostYet(r);
    hide NoneLost;
    assert forall k: nat :: k <= |none| ==> none[..k] == [];
  }

  lemma LostAtOnce(r: Run, c: Cmd, log: seq<Cmd>)
    ensures NeverLost(r, [c] + log) ==> NoneLost(r, [c])
  {
    hide NoneLost;
    assert ([c] + log)[..1] == [c];
  }

  lemma NeverLostSplits(r: Run, c: Cmd, log: seq<Cmd>)
    requires NoneLost(r, [c])
    ensures NeverLost(r, [c] + log) <==> NeverLost(Step(r, c), log)
  {
    NothingLostYet(r);
    hide NoneLost, Step;
    var all, next := [c] + log, Step(r, c);
    forall k: nat | k <= |log|
      ensures NoneLost(r, all[..k + 1]) <==> NoneLost(next, log[..k])
    {
      assert all[..k + 1] == [c] + log[..k];
      NoneLostSplits(r, c, log[..k]);
    }
    if NeverLost(next, log) {
      forall k: nat | k <= |all|
        ensures NoneLost(r, all[..k])
      {
        if k == 0 { assert all[..k] == []; } else { var m: nat := k - 1; assert NoneLost(next, log[..m]); }
      }
    }
    if NeverLost(r, all) {
      forall k: nat | k <= |log|
        ensures NoneLost(next, log[..k])
      {
        var m: nat := k + 1;
        assert NoneLost(r, all[..m]);
      }
    }
  }

  lemma NothingLostYet(r: Run)
    ensures NoneLost(r, [])
  {
  }

  lemma NoneLostSplits(r: Run, c: Cmd, log: seq<Cmd>)
    requires NoneLost(r, [c])
    ensures NoneLost(r, [c] + log) <==> NoneLost(Step(r, c), log)
  {
    hide *;
    NoneLostIff(r, [c]);
    NoneLostIff(r, [c] + log);
    NoneLostIff(Step(r, c), log);
    LogSplits(r, c, log);
    forall w: Ord -> real
      ensures Sum(w, Submitted([c] + log)) == Sum(w, Submitted([c])) + Sum(w, Submitted(log))
    {
      SubmittedSplits(c, log);
      SumConcat(w, Submitted([c]), Submitted(log));
    }
  }

  lemma LogSplits(r: Run, c: Cmd, log: seq<Cmd>)
    ensures After(r, [c]) == Step(r, c) && After(r, [c] + log) == After(Step(r, c), log)
    ensures Admitted(r, [c] + log) <==> Admissible(r, c) && Admitted(Step(r, c), log)
    ensures Careful(r, [c] + log) <==> Harmless(r, c) && Careful(Step(r, c), log)
  {
    hide Step, Admissible, Harmless;
    assert [c][1..] == [] && ([c] + log)[1..] == log;
  }

  lemma SubmittedSplits(c: Cmd, log: seq<Cmd>)
    ensures Submitted([c] + log) == Submitted([c]) + Submitted(log)
  {
    assert [c][1..] == [] && ([c] + log)[1..] == log;
  }
}
