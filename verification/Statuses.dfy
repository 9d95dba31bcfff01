/** What an order's status tells, in every run: of an order at rest, how far it is filled; of any other, how it
    ended. */
module Statuses {
  import opened Models
  import opened BookSpec
  import opened MatchLaws
  import opened LimitLaws
  import opened BookLaws
  import opened Runs

  /** At rest: something remains, and the status says whether anything has been filled. */
  predicate Going(o: Ord) {
    && 0.0 <= o.filled < o.amount && o.remain == o.amount - o.filled
    && (o.status == PartiallyFilled <==> o.filled > 0.0) && (o.status == New <==> o.filled == 0.0)
  }

  /** No longer, or never, in the book: completely filled, cancelled with a rest, rejected for its type, or parked as a
      stop order; only an order for nothing at all is still new. */
  predicate Ended(o: Ord) {
    match o.kind
    case UnknownType => o.status == Rejected && o.filled == 0.0
    case StopLimit => o.status == New && o.filled == 0.0
    case StopMarket => o.status == New && o.filled == 0.0
    case _ =>
      || (o.status == Filled && o.filled == o.amount > 0.0 && o.remain == 0.0)
      || (o.status == Cancelled && 0.0 <= o.filled < o.amount && o.remain == o.amount - o.filled)
      || (o.status == New && o.amount == 0.0)
  }

  ghost predicate AllTold(r: Run) {
    && (forall o <- Flatten(r.book.bids) :: Going(o) && o.side == Buy)
    && (forall o <- Flatten(r.book.asks) :: Going(o) && o.side == Sell)
    && (forall o <- Flatten(r.strays) :: Going(o))
    && (forall o <- r.done :: Ended(o))
  }

  ghost predicate AllEnded(r: Run) { forall o <- r.done :: Ended(o) }

  lemma RestsIsGoing(o: Ord, s: Side)
    requires Rests(o, s, o.price)
    ensures Going(o) && o.side == s && o.kind == Limit && Ended(o.(status := Cancelled))
  {
  }

  lemma {:induction false} TakerStatus(taker: Ord, flat: seq<Ord>, priced: bool)
    requires taker.status in {New, PartiallyFilled, Filled}
    ensures Greedy(taker, flat, priced).taker.status in {New, PartiallyFilled, Filled}
    decreases |flat|
  {
    hide Cost;
    if taker.remain > 0.0 && flat != [] && Accepts(taker, priced, flat[0].price) {
      var amt := Min(taker.remain, flat[0].remain);
      TakerStatus(taker.Fill(amt, Cost(flat[0].price, amt)), flat[1..], priced);
    }
  }

  /** A taker that has been matched rests, or has ended. */
  lemma SettledEnds(t: Ord)
    requires t.Kept() && t.kind in {Limit, Market} && t.status in {New, PartiallyFilled, Filled}
    ensures !GoesToBook(t) ==> Ended(Settled(t))
  {
  }

  lemma UnmatchedEnds(o: Ord)
    requires o.Fresh() && o.kind !in {Limit, Market}
    ensures Ended(Settled(o)) && !GoesToBook(o)
  {
  }

  lemma SpentEnds(o: Ord)
    requires Spent(o) && o.kind == Limit
    ensures Ended(o)
  {
  }

  /** How the orders of one submission end. */
  lemma SubmitEnds(r: Run, o: Ord)
    requires Inv(r) && o.Fresh()
    ensures var p := Process(r.book, o);
      (forall x <- p.filled :: Ended(x)) && (!p.rests ==> Ended(p.taker))
  {
    hide *;
    var s := o.side.Opposite();
    var levels := r.book.Of(s);
    var reach := Reach(o, levels);
    var g := Greedy(o, reach, o.kind == Limit);
    InvParts(r, s);
    FreshIsFair(o);
    FreshIsNew(o);
    ReachRests(o, levels, s);
    MatchedValues(o, levels, s);
    GreedyTerms(o, reach, o.kind == Limit);
    SameKind(g.taker, o);
    GreedyOrders(o, reach, o.kind == Limit, s);
    TakerStatus(o, reach, o.kind == Limit);
    forall x | x in g.filled
      ensures Ended(x)
    {
      SpentEnds(x);
    }
    ProcessIs(r.book, o);
    if o.kind in {Limit, Market} { SettledEnds(g.taker); } else { NothingReached(o, levels); UnmatchedEnds(o); }
  }

  lemma FreshIsNew(o: Ord)
    requires o.Fresh()
    ensures o.status == New && o.side == o.side.Opposite().Opposite()
  {
  }

  lemma SameKind(a: Ord, b: Ord)
    requires SameTerms(a, b)
    ensures a.kind == b.kind
  {
  }

  lemma NothingReached(o: Ord, levels: seq<Level>)
    requires o.kind !in {Limit, Market}
    ensures Matched(o, levels).taker == o
  {
  }

  lemma ProcessIs(b: Book, o: Ord)
    ensures var p, m := Process(b, o), Matched(o, b.Of(o.side.Opposite()));
      p.filled == m.filled && p.taker == Settled(m.taker) && p.rests == GoesToBook(m.taker)
  {
    hide Matched, AddTo;
  }

  lemma StepEnds(r: Run, c: Cmd)
    requires Inv(r) && AllEnded(r) && Admissible(r, c)
    ensures AllEnded(Step(r, c))
  {
    hide *;
    match c {
      case Submit(o) =>
        IsFresh(r, o);
        SubmitEnds(r, o);
        DoneWith(r, o);
      case Withdraw(id) =>
        InvParts(r, Buy);
        InvParts(r, Sell);
        WithdrawCases(r, id);
        if SideHas(r.book.Of(Buy), id) {
          TakeOutEnds(r, id, Buy);
        } else if SideHas(r.book.Of(Sell), id) {
          TakeOutEnds(r, id, Sell);
        } else if SideHas(r.strays, id) {
          var x := StraySpot(r, id);
          TakeStrayEnds(r, id);
          LostParts(TakeStray(r, id), x.side, x.price);
          SameDone(TakeStray(r, id), LoseLevel(TakeStray(r, id), x.side, x.price));
        } else {
          var next := ForgetSpent(r, id);
          ForgottenDone(r, id);
          SameDone(r, next);
          if id in r.spent {
            var x := r.spent[id];
            LostParts(next, x.side, x.price);
            SameDone(next, LoseLevel(next, x.side, x.price));
          }
        }
    }
  }

  lemma IsFresh(r: Run, o: Ord)
    requires Admissible(r, Submit(o))
    ensures o.Fresh()
  {
  }

  lemma DoneWith(r: Run, o: Ord)
    requires AllEnded(r)
    requires var p := Process(r.book, o); (forall x <- p.filled :: Ended(x)) && (!p.rests ==> Ended(p.taker))
    ensures AllEnded(Step(r, Submit(o)))
  {
    hide Process, Swept, FilledSpots, Ended;
  }

  lemma TakeOutEnds(r: Run, id: nat, s: Side)
    requires BookOk(r.book) && AllEnded(r) && SideHas(r.book.Of(s), id)
    ensures AllEnded(TakeOut(r, id, s))
  {
    SidesOf(r.book, s);
    CancelKeeps(r.book.Of(s), id, s, Remain);
    RestsIsGoing(Resting(r.book.Of(s), id), s);
    hide CancelIn, Swept, Resting, SideOk, Ended, SideHas;
  }

  lemma TakeStrayEnds(r: Run, id: nat)
    requires AllKept(r) && AllEnded(r) && SideHas(r.strays, id)
    ensures AllEnded(TakeStray(r, id))
  {
    hide *;
    var k := FirstWith(r.strays, id);
    TakenStray(r, id);
    RemoveSums(r.strays[k].queue, id, Remain);
    var o := Find(r.strays[k].queue, id);
    FlattenHas(r.strays, k, o);
    StrayRests(r, o);
    RestsIsGoing(o, o.side);
    OneMoreEnded(r, TakeStray(r, id), o.(status := Cancelled));
  }

  lemma StrayRests(r: Run, o: Ord)
    requires AllKept(r) && o in Flatten(r.strays)
    ensures Rests(o, o.side, o.price)
  {
  }

  lemma OneMoreEnded(r: Run, r': Run, o: Ord)
    requires AllEnded(r) && Ended(o) && r'.done == r.done + [o]
    ensures AllEnded(r')
  {
  }

  lemma SameDone(r: Run, r': Run)
    ensures AllEnded(r) && r'.done == r.done ==> AllEnded(r')
  {
  }

  lemma ForgottenDone(r: Run, id: nat)
    ensures ForgetSpent(r, id).done == r.done
  {
  }

  /** In every run, an order at rest is partially filled exactly if anything of it is filled and new otherwise, and an
      order that is done with is filled, cancelled, rejected or parked, and says so. */
  lemma {:induction false} StatusTells(r: Run, log: seq<Cmd>)
    requires Inv(r) && AllEnded(r) && Admitted(r, log)
    ensures AllTold(After(r, log))
    decreases |log|
  {
    if log == [] {
      EndedIsTold(r);
    } else {
      StepKeepsInvariant(r, log[0]);
      StepEnds(r, log[0]);
      hide Step, Inv, AllEnded, AllTold;
      StatusTells(Step(r, log[0]), log[1..]);
    }
  }

  lemma EndedIsTold(r: Run)
    requires Inv(r) && AllEnded(r)
    ensures AllTold(r)
  {
    FlattenRests(r.book.bids, Buy);
    FlattenRests(r.book.asks, Sell);
    hide SideOk, Ended, Going, Rests, Balanced, Fair;
    forall o | o in Flatten(r.book.bids)
      ensures Going(o) && o.side == Buy
    {
      RestsIsGoing(o, Buy);
    }
    forall o | o in Flatten(r.book.asks)
      ensures Going(o) && o.side == Sell
    {
      RestsIsGoing(o, Sell);
    }
    forall o | o in Flatten(r.strays)
      ensures Going(o)
    {
      RestsIsGoing(o, o.side);
    }
  }
}
