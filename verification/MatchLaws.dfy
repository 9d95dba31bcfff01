/** Matching is the greedy fill, in price-time priority, of the opposite side written as one flat list of orders. */
module MatchLaws {
  import opened Models
  import opened SortedKeys
  import opened BookSpec

  // ------------------------------------------------------------------ the reference: a greedy fill of a flat list

  function Greedy(taker: Ord, flat: seq<Ord>, priced: bool): Fills
    decreases |flat|
  {
    if taker.remain <= 0.0 || flat == [] || !Accepts(taker, priced, flat[0].price) then Fills(taker, flat, [], [])
    else
      var price := flat[0].price;
      var amt := Min(taker.remain, flat[0].remain);
      var t, m := taker.Fill(amt, Cost(price, amt)), flat[0].Fill(amt, Cost(price, amt));
      var trade := NewTrade(taker.symbol, taker, flat[0], price, amt);
      if m.remain == 0.0 then
        var r := Greedy(t, flat[1..], priced);
        Fills(r.taker, r.rest, [m] + r.filled, [trade] + r.trades)
      else
        Fills(t, [m] + flat[1..], [], [trade])
  }

  /** A sequence of resting orders of one side. */
  ghost predicate AllRest(flat: seq<Ord>, s: Side) { forall o <- flat :: Rests(o, s, o.price) }

  /** A filled maker: nothing remains, and it is the same order otherwise. */
  ghost predicate Spent(o: Ord) { o.Kept() && o.status == Filled }

  lemma OneFill(taker: Ord, maker: Ord, s: Side)
    requires taker.Open() && Rests(maker, s, maker.price)
    ensures var amt := Min(taker.remain, maker.remain);
      var t, m := taker.Fill(amt, Cost(maker.price, amt)), maker.Fill(amt, Cost(maker.price, amt));
      && amt > 0.0 && t.Kept() && (t.remain > 0.0 ==> t.Open() && m.remain == 0.0) && m.Kept()
      && (m.remain == 0.0 <==> m.IsFinished()) && (m.remain == 0.0 ==> Spent(m))
      && (m.remain > 0.0 ==> Rests(m, s, maker.price) && t.remain == 0.0 && m.remain == maker.remain - taker.remain)
  {
    hide Cost;
  }

  /** After one level the taker is done, or the level is empty; what is left of the level still rests. */
  lemma {:induction false} QueueOutcome(taker: Ord, price: real, q: seq<Ord>, s: Side)
    requires taker.Kept() && (taker.remain > 0.0 ==> taker.Open())
    requires forall o <- q :: Rests(o, s, price)
    ensures var f := MatchQueue(taker, price, q);
      && f.taker.Kept() && (f.taker.remain > 0.0 ==> f.taker.Open() && f.rest == [])
      && (forall o <- f.rest :: Rests(o, s, price)) && |f.rest| <= |q|
    decreases |q|
  {
    hide Cost;
    if taker.remain > 0.0 && q != [] {
      assert q[0] in q;
      OneFill(taker, q[0], s);
      var amt := Min(taker.remain, q[0].remain);
      var t := taker.Fill(amt, Cost(price, amt));
      QueueOutcome(t, price, q[1..], s);
    }
  }

  function Prefixed(filled: seq<Ord>, trades: seq<Trade>, f: Fills): Fills {
    Fills(f.taker, f.rest, filled + f.filled, trades + f.trades)
  }

  /** One level against the taker is the greedy fill of its queue, and then of whatever follows it. */
  lemma {:induction false} QueueIsGreedy(taker: Ord, price: real, q: seq<Ord>, more: seq<Ord>, s: Side, priced: bool)
    requires taker.Kept() && (taker.remain > 0.0 ==> taker.Open())
    requires forall o <- q :: Rests(o, s, price)
    requires Accepts(taker, priced, price)
    ensures var f := MatchQueue(taker, price, q);
      Greedy(taker, q + more, priced) ==
        if f.rest == [] then Prefixed(f.filled, f.trades, Greedy(f.taker, more, priced))
        else Fills(f.taker, f.rest + more, f.filled, f.trades)
    decreases |q|
  {
    hide Cost;
    if q == [] {
      assert q + more == more;
    } else if taker.remain > 0.0 {
      assert q[0] in q;
      OneFill(taker, q[0], s);
      var amt := Min(taker.remain, q[0].remain);
      var t, m := taker.Fill(amt, Cost(price, amt)), q[0].Fill(amt, Cost(price, amt));
      var trade := NewTrade(taker.symbol, taker, q[0], price, amt);
      assert (q + more)[0] == q[0] && (q + more)[1..] == q[1..] + more;
      if m.remain == 0.0 {
        QueueIsGreedy(t, price, q[1..], more, s, priced);
        var f := MatchQueue(t, price, q[1..]);
        PrefixTwice([m], [trade], f.filled, f.trades, Greedy(f.taker, more, priced));
      } else {
        assert [m] + (q[1..] + more) == ([m] + q[1..]) + more;
      }
    }
  }

  lemma PrefixTwice(a: seq<Ord>, b: seq<Trade>, c: seq<Ord>, d: seq<Trade>, f: Fills)
    ensures Prefixed(a, b, Prefixed(c, d, f)) == Prefixed(a + c, b + d, f)
  {
  }

  /** The whole side against the taker is the greedy fill of the side written as one list. */
  lemma {:induction false} SideIsGreedy(taker: Ord, levels: seq<Level>, priced: bool, s: Side)
    requires taker.Kept() && (taker.remain > 0.0 ==> taker.Open()) && SideOk(levels, s)
    ensures var r := MatchSide(taker, levels, priced);
      Greedy(taker, Flatten(levels), priced) == Fills(r.taker, Flatten(r.levels), r.filled, r.trades)
    decreases |levels|
  {
    if taker.remain > 0.0 && levels != [] && Accepts(taker, priced, levels[0].price) {
      var q, more := levels[0].queue, Flatten(levels[1..]);
      assert levels[0] in levels;
      QueueOutcome(taker, levels[0].price, q, s);
      QueueIsGreedy(taker, levels[0].price, q, more, s, priced);
      var f := MatchQueue(taker, levels[0].price, q);
      if f.rest == [] {
        SideOkTail(levels, s);
        SameLimits(taker, levels[0].price, q);
        SideIsGreedy(f.taker, levels[1..], priced, s);
      } else {
        assert ([levels[0].(queue := f.rest)] + levels[1..])[1..] == levels[1..];
      }
    } else if levels != [] {
      assert levels[0] in levels && levels[0].queue[0] in levels[0].queue;
    }
  }

  lemma SideOkTail(levels: seq<Level>, s: Side)
    requires SideOk(levels, s) && levels != []
    ensures SideOk(levels[1..], s)
    ensures forall l <- levels[1..] :: Before(Desc(s), levels[0].price, l.price)
  {
    var ps := Prices(levels);
    assert Prices(levels[1..]) == ps[1..];
    forall l | l in levels[1..]
      ensures Before(Desc(s), levels[0].price, l.price)
    {
      var i :| 0 <= i < |levels[1..]| && levels[1..][i] == l;
      assert Before(Desc(s), ps[0], ps[i + 1]);
    }
  }

  /** Fills change no price, side or identity, so they change nothing about what the taker accepts. */
  ghost predicate SameTerms(a: Ord, b: Ord) {
    a == b.(status := a.status, filled := a.filled, remain := a.remain, filledTotal := a.filledTotal)
  }

  lemma {:induction false} SameLimits(taker: Ord, price: real, q: seq<Ord>)
    ensures SameTerms(MatchQueue(taker, price, q).taker, taker)
    decreases |q|
  {
    hide Cost;
    if taker.remain > 0.0 && q != [] && q[0].remain > 0.0 {
      var amt := Min(taker.remain, q[0].remain);
      SameLimits(taker.Fill(amt, Cost(price, amt)), price, q[1..]);
    }
  }

  // ------------------------------------------------------------------ what is left of the side

  /** A match leaves a well-formed side: some of the best levels are gone, at most the next one is shorter. */
  ghost predicate LeavesSide(levels: seq<Level>, left: seq<Level>, s: Side) {
    && SideOk(left, s) && |left| <= |levels|
    && Prices(left) == Prices(levels)[|levels| - |left|..]
  }

  lemma BestIsLeft(taker: Ord, levels: seq<Level>, s: Side)
    requires taker.Kept() && (taker.remain > 0.0 ==> taker.Open()) && SideOk(levels, s) && levels != []
    ensures var r := MatchBest(taker, levels);
      && LeavesSide(levels, r.levels, s) && r.taker.Kept() && SameTerms(r.taker, taker)
      && (r.taker.remain > 0.0 ==> r.taker.Open() && r.levels == levels[1..])
      && (|r.levels| == |levels| ==> r.taker.remain == 0.0)
  {
    hide *;
    var l, f := levels[0], MatchQueue(taker, levels[0].price, levels[0].queue);
    FirstLevel(levels, s);
    QueueOutcome(taker, l.price, l.queue, s);
    SameLimits(taker, l.price, l.queue);
    BestParts(taker, levels);
    NothingOwed(f.taker);
    if f.rest == [] {
      TailIsLeft(levels, s);
    } else {
      ShorterIsLeft(levels, f.rest, s);
    }
  }

  lemma BestParts(t: Ord, ls: seq<Level>)
    requires ls != []
    ensures var r, f := MatchBest(t, ls), MatchQueue(t, ls[0].price, ls[0].queue);
      && r.taker == f.taker && r.trades == f.trades && r.filled == f.filled
      && r.levels == if f.rest == [] then ls[1..] else [ls[0].(queue := f.rest)] + ls[1..]
  {
  }

  lemma NothingOwed(o: Ord)
    requires o.Kept()
    ensures o.remain >= 0.0
  {
  }

  lemma FirstLevel(levels: seq<Level>, s: Side)
    requires SideOk(levels, s) && levels != []
    ensures forall o <- levels[0].queue :: Rests(o, s, levels[0].price)
  {
    assert levels[0] in levels;
  }

  lemma TailIsLeft(levels: seq<Level>, s: Side)
    requires SideOk(levels, s) && levels != []
    ensures LeavesSide(levels, levels[1..], s)
  {
    SideOkTail(levels, s);
    assert Prices(levels[1..]) == Prices(levels)[1..];
  }

  lemma ShorterIsLeft(levels: seq<Level>, rest: seq<Ord>, s: Side)
    requires SideOk(levels, s) && levels != [] && rest != [] && forall o <- rest :: Rests(o, s, levels[0].price)
    ensures LeavesSide(levels, [levels[0].(queue := rest)] + levels[1..], s)
  {
    var left := [levels[0].(queue := rest)] + levels[1..];
    assert Prices(left) == Prices(levels) && Prices(levels)[0..] == Prices(levels);
    assert forall l <- left :: l == left[0] || l in levels[1..];
    assert forall l <- levels[1..] :: l in levels;
  }

  lemma {:induction false} SideIsLeft(taker: Ord, levels: seq<Level>, priced: bool, s: Side)
    requires taker.Kept() && (taker.remain > 0.0 ==> taker.Open()) && SideOk(levels, s)
    ensures var r := MatchSide(taker, levels, priced);
      && LeavesSide(levels, r.levels, s) && r.taker.Kept() && SameTerms(r.taker, taker)
      && (r.taker.remain > 0.0 ==>
           r.taker.Open() && (r.levels == [] || !Accepts(taker, priced, r.levels[0].price)))
    decreases |levels|
  {
    hide LeavesSide, MatchBest, SideOk, Ord.Kept, Ord.Open, Accepts;
    NothingHappens(taker, levels, s);
    if taker.remain > 0.0 && levels != [] && Accepts(taker, priced, levels[0].price) {
      BestIsLeft(taker, levels, s);
      var r := MatchBest(taker, levels);
      if |r.levels| < |levels| {
        StaysLeft(levels, r.levels, s);
        SideIsLeft(r.taker, r.levels, priced, s);
        var left := MatchSide(r.taker, r.levels, priced).levels;
        LeavesTwice(levels, r.levels, left, s);
        if left != [] { SameAccepts(r.taker, taker, priced, left[0].price); }
      } else {
        StaysLeft(levels, r.levels, s);
      }
    }
  }

  lemma SameAccepts(a: Ord, b: Ord, priced: bool, price: real)
    requires SameTerms(a, b)
    ensures Accepts(a, priced, price) == Accepts(b, priced, price)
  {
  }

  lemma NothingHappens(o: Ord, levels: seq<Level>, s: Side)
    requires SideOk(levels, s)
    ensures LeavesSide(levels, levels, s) && SameTerms(o, o)
  {
    assert Prices(levels)[0..] == Prices(levels);
  }

  lemma StaysLeft(levels: seq<Level>, left: seq<Level>, s: Side)
    requires LeavesSide(levels, left, s)
    ensures SideOk(left, s) && |left| <= |levels|
  {
  }

  lemma LeavesTwice(levels: seq<Level>, mid: seq<Level>, left: seq<Level>, s: Side)
    requires LeavesSide(levels, mid, s) && LeavesSide(mid, left, s)
    ensures LeavesSide(levels, left, s)
  {
    hide SideOk;
    var ps := Prices(levels);
    assert ps[|levels| - |mid|..][|mid| - |left|..] == ps[|levels| - |left|..];
  }

  // ------------------------------------------------------------------ sums over orders and trades

  function Sum(w: Ord -> real, os: seq<Ord>): real { if os == [] then 0.0 else w(os[0]) + Sum(w, os[1..]) }

  function Volume(ts: seq<Trade>): real { if ts == [] then 0.0 else ts[0].amount + Volume(ts[1..]) }

  function Value(ts: seq<Trade>): real { if ts == [] then 0.0 else ts[0].total + Value(ts[1..]) }

  function Remain(o: Ord): real { o.remain }

  function FilledAmount(o: Ord): real { o.filled }

  function FilledTotal(o: Ord): real { o.filledTotal }

  lemma {:induction false} SumConcat(w: Ord -> real, a: seq<Ord>, b: seq<Ord>)
    ensures Sum(w, a + b) == Sum(w, a) + Sum(w, b)
  {
    if a == [] {
      assert a + b == b;
    } else {
      assert (a + b)[1..] == a[1..] + b;
      SumConcat(w, a[1..], b);
    }
  }

  lemma {:induction false} TradesConcat(a: seq<Trade>, b: seq<Trade>)
    ensures Volume(a + b) == Volume(a) + Volume(b) && Value(a + b) == Value(a) + Value(b)
  {
    if a == [] {
      assert a + b == b;
    } else {
      assert (a + b)[1..] == a[1..] + b;
      TradesConcat(a[1..], b);
    }
  }

  /** Every trade books the same amount and the same total on both of its orders. */
  lemma {:induction false} GreedyBooksTwice(taker: Ord, flat: seq<Ord>, priced: bool)
    ensures var g := Greedy(taker, flat, priced);
      && g.taker.filled == taker.filled + Volume(g.trades)
      && g.taker.filledTotal == taker.filledTotal + Value(g.trades)
      && Sum(FilledAmount, g.filled) + Sum(FilledAmount, g.rest) == Sum(FilledAmount, flat) + Volume(g.trades)
      && Sum(FilledTotal, g.filled) + Sum(FilledTotal, g.rest) == Sum(FilledTotal, flat) + Value(g.trades)
    decreases |flat|
  {
    hide Cost;
    if taker.remain > 0.0 && flat != [] && Accepts(taker, priced, flat[0].price) {
      var price, amt := flat[0].price, Min(taker.remain, flat[0].remain);
      var t, m := taker.Fill(amt, Cost(price, amt)), flat[0].Fill(amt, Cost(price, amt));
      if m.remain == 0.0 {
        GreedyBooksTwice(t, flat[1..], priced);
        var r, g := Greedy(t, flat[1..], priced), Greedy(taker, flat, priced);
        assert g.filled[1..] == r.filled && g.trades[1..] == r.trades;
      } else {
        assert ([m] + flat[1..])[1..] == flat[1..];
        assert Volume(Greedy(taker, flat, priced).trades[1..]) == 0.0;
      }
    }
  }

  /** No order is lost, none appears: anything that fills do not change adds up to the same as before. */
  lemma {:induction false} GreedyKeepsOrders(taker: Ord, flat: seq<Ord>, priced: bool, w: Ord -> real)
    requires forall a, b :: SameTerms(a, b) ==> w(a) == w(b)
    ensures var g := Greedy(taker, flat, priced);
      w(g.taker) == w(taker) && Sum(w, g.filled) + Sum(w, g.rest) == Sum(w, flat)
    decreases |flat|
  {
    hide Cost;
    if taker.remain > 0.0 && flat != [] && Accepts(taker, priced, flat[0].price) {
      var price, amt := flat[0].price, Min(taker.remain, flat[0].remain);
      var t, m := taker.Fill(amt, Cost(price, amt)), flat[0].Fill(amt, Cost(price, amt));
      assert SameTerms(t, taker) && SameTerms(m, flat[0]);
      if m.remain == 0.0 {
        GreedyKeepsOrders(t, flat[1..], priced, w);
        assert Greedy(taker, flat, priced).filled[1..] == Greedy(t, flat[1..], priced).filled;
      } else {
        assert ([m] + flat[1..])[1..] == flat[1..];
      }
    }
  }

  lemma {:induction false} FilledSide(taker: Ord, flat: seq<Ord>, priced: bool, s: Side)
    requires AllRest(flat, s)
    ensures forall o <- Greedy(taker, flat, priced).filled :: o.side == s
    decreases |flat|
  {
    hide Cost;
    if taker.remain > 0.0 && flat != [] && Accepts(taker, priced, flat[0].price) {
      assert flat[0] in flat;
      var amt := Min(taker.remain, flat[0].remain);
      FilledSide(taker.Fill(amt, Cost(flat[0].price, amt)), flat[1..], priced, s);
    }
  }

  lemma {:induction false} GreedyTerms(taker: Ord, flat: seq<Ord>, priced: bool)
    ensures SameTerms(Greedy(taker, flat, priced).taker, taker)
    decreases |flat|
  {
    hide Cost;
    if taker.remain > 0.0 && flat != [] && Accepts(taker, priced, flat[0].price) {
      var amt := Min(taker.remain, flat[0].remain);
      GreedyTerms(taker.Fill(amt, Cost(flat[0].price, amt)), flat[1..], priced);
    }
  }

  // ------------------------------------------------------------------ the greedy fill, order by order

  /** What stands in the list before order i. */
  function Ahead(flat: seq<Ord>, i: nat): real
    requires i <= |flat|
  {
    Sum(Remain, flat[..i])
  }

  lemma AheadStep(flat: seq<Ord>, i: nat)
    requires i < |flat|
    ensures Ahead(flat, i + 1) == flat[0].remain + Ahead(flat[1..], i)
  {
    assert flat[..i + 1] == [flat[0]] + flat[1..][..i];
    SumConcat(Remain, [flat[0]], flat[1..][..i]);
  }

  /** Trade i is with order i of the list, at that order's own price, for what is still needed or all that it has. */
  predicate TradeFits(taker: Ord, flat: seq<Ord>, priced: bool, i: nat, trade: Trade)
    requires i < |flat|
  {
    && Accepts(taker, priced, flat[i].price) && Ahead(flat, i) < taker.remain
    && trade.price == flat[i].price && trade.total == trade.price * trade.amount
    && trade.taker == taker.id && trade.user == taker.user && trade.symbol == taker.symbol
    && trade.maker == flat[i].id && trade.makerUser == flat[i].user && trade.takerSide == taker.side
    && var wanted := taker.remain - Ahead(flat, i);
       trade.amount == if wanted < flat[i].remain then wanted else flat[i].remain
  }

  /** Trading ends after n orders: no more orders, the next price is not accepted, or nothing more is needed. */
  predicate EndsAt(taker: Ord, flat: seq<Ord>, priced: bool, n: nat)
    requires n <= |flat|
  {
    n == |flat| || !Accepts(taker, priced, flat[n].price) || Ahead(flat, n) >= taker.remain
  }

  lemma TradeLifts(taker: Ord, t: Ord, flat: seq<Ord>, priced: bool, i: nat, trade: Trade)
    requires SameTerms(t, taker) && i + 1 < |flat| && t.remain == taker.remain - flat[0].remain
    requires TradeFits(t, flat[1..], priced, i, trade)
    ensures TradeFits(taker, flat, priced, i + 1, trade)
  {
    hide Cost;
    AheadStep(flat, i);
  }

  lemma EndLifts(taker: Ord, t: Ord, flat: seq<Ord>, priced: bool, n: nat)
    requires SameTerms(t, taker) && n + 1 <= |flat| && t.remain == taker.remain - flat[0].remain
    requires EndsAt(t, flat[1..], priced, n)
    ensures EndsAt(taker, flat, priced, n + 1)
  {
    AheadStep(flat, n);
  }

  /** The first trade, and what a taker that it completes is left with. */
  lemma FirstTrade(taker: Ord, flat: seq<Ord>, priced: bool)
    requires taker.remain > 0.0 && flat != [] && Accepts(taker, priced, flat[0].price)
    ensures var amt := Min(taker.remain, flat[0].remain);
      TradeFits(taker, flat, priced, 0, NewTrade(taker.symbol, taker, flat[0], flat[0].price, amt))
    ensures taker.remain <= flat[0].remain ==> EndsAt(taker, flat, priced, 1)
  {
    AheadStep(flat, 0);
  }

  lemma NoTrade(taker: Ord, flat: seq<Ord>, priced: bool)
    requires taker.remain <= 0.0 || flat == [] || !Accepts(taker, priced, flat[0].price)
    ensures Greedy(taker, flat, priced).trades == [] && EndsAt(taker, flat, priced, 0)
  {
  }

  lemma TradesStep(taker: Ord, flat: seq<Ord>, priced: bool, s: Side)
    requires taker.Open() && flat != [] && Accepts(taker, priced, flat[0].price) && AllRest(flat, s)
    ensures var price, amt := flat[0].price, Min(taker.remain, flat[0].remain);
      var t, trade := taker.Fill(amt, Cost(price, amt)), NewTrade(taker.symbol, taker, flat[0], price, amt);
      && t.Kept() && (t.remain > 0.0 ==> t.Open()) && SameTerms(t, taker) && AllRest(flat[1..], s)
      && if flat[0].remain <= taker.remain
         then Greedy(taker, flat, priced).trades == [trade] + Greedy(t, flat[1..], priced).trades
           && t.remain == taker.remain - flat[0].remain
         else Greedy(taker, flat, priced).trades == [trade]
  {
    hide Cost;
    assert flat[0] in flat && forall o <- flat[1..] :: o in flat;
    OneFill(taker, flat[0], s);
  }

  lemma {:induction false} GreedyTrades(taker: Ord, flat: seq<Ord>, priced: bool, s: Side)
    requires taker.Kept() && (taker.remain > 0.0 ==> taker.Open()) && AllRest(flat, s)
    ensures var g := Greedy(taker, flat, priced);
      && |g.trades| <= |flat| && EndsAt(taker, flat, priced, |g.trades|)
      && forall i :: 0 <= i < |g.trades| ==> TradeFits(taker, flat, priced, i, g.trades[i])
    decreases |flat|
  {
    hide *;
    if taker.remain > 0.0 && flat != [] && Accepts(taker, priced, flat[0].price) {
      TradesStep(taker, flat, priced, s);
      FirstTrade(taker, flat, priced);
      if flat[0].remain <= taker.remain {
        var amt := Min(taker.remain, flat[0].remain);
        var t := taker.Fill(amt, Cost(flat[0].price, amt));
        GreedyTrades(t, flat[1..], priced, s);
        var r := Greedy(t, flat[1..], priced).trades;
        EndLifts(taker, t, flat, priced, |r|);
        var all := Greedy(taker, flat, priced).trades;
        forall i | 0 <= i < |all|
          ensures TradeFits(taker, flat, priced, i, all[i])
        {
          if i > 0 { TradeLifts(taker, t, flat, priced, i - 1, r[i - 1]); }
        }
      }
    } else {
      NoTrade(taker, flat, priced);
    }
  }

  /** The orders afterwards are the orders before with their trade booked; only the last one can still have a rest. */
  ghost predicate Booked(flat: seq<Ord>, g: Fills) {
    var n, k := |g.trades|, |g.filled|;
    && k <= n <= |flat| && n <= k + 1
    && (forall i :: 0 <= i < k ==> g.filled[i] == flat[i].Fill(g.trades[i].amount, g.trades[i].total))
    && g.rest == (if n > k then [flat[k].Fill(g.trades[k].amount, g.trades[k].total)] else []) + flat[n..]
  }

  lemma {:induction false} GreedyBooks(taker: Ord, flat: seq<Ord>, priced: bool)
    ensures Booked(flat, Greedy(taker, flat, priced))
    decreases |flat|
  {
    hide Cost;
    var g := Greedy(taker, flat, priced);
    if taker.remain > 0.0 && flat != [] && Accepts(taker, priced, flat[0].price) {
      var price, amt := flat[0].price, Min(taker.remain, flat[0].remain);
      var t, m := taker.Fill(amt, Cost(price, amt)), flat[0].Fill(amt, Cost(price, amt));
      if m.remain == 0.0 {
        GreedyBooks(t, flat[1..], priced);
        BookedLifts(flat, m, NewTrade(taker.symbol, taker, flat[0], price, amt), Greedy(t, flat[1..], priced));
      }
    }
  }

  lemma BookedLifts(flat: seq<Ord>, m: Ord, trade: Trade, r: Fills)
    requires flat != [] && Booked(flat[1..], r) && m == flat[0].Fill(trade.amount, trade.total)
    ensures Booked(flat, Fills(r.taker, r.rest, [m] + r.filled, [trade] + r.trades))
  {
    hide Ord.Fill;
    var g := Fills(r.taker, r.rest, [m] + r.filled, [trade] + r.trades);
    assert flat[1..][|r.trades|..] == flat[|g.trades|..];
  }

  /** What an order has been paid for the amount filled in between: its own price. */
  predicate PaidOwnPrice(now: Ord, was: Ord) {
    now.filled > was.filled && now.filledTotal - was.filledTotal == was.price * (now.filled - was.filled)
  }

  /** Every maker that trades is filled by its trade's amount, at its own price. */
  lemma MakersArePaid(taker: Ord, flat: seq<Ord>, priced: bool, s: Side)
    requires taker.Kept() && (taker.remain > 0.0 ==> taker.Open()) && AllRest(flat, s)
    ensures var g := Greedy(taker, flat, priced);
      && |g.trades| <= |flat| && |g.filled| <= |g.trades| <= |g.filled| + 1
      && (forall i :: 0 <= i < |g.filled| ==>
            PaidOwnPrice(g.filled[i], flat[i]) && g.filled[i].filled == flat[i].filled + g.trades[i].amount)
      && (|g.filled| < |g.trades| ==>
            var i := |g.filled|;
            g.rest != [] && PaidOwnPrice(g.rest[0], flat[i]) && g.rest[0].filled == flat[i].filled + g.trades[i].amount)
  {
    var g := Greedy(taker, flat, priced);
    hide *;
    GreedyTrades(taker, flat, priced, s);
    GreedyBooks(taker, flat, priced);
    forall i | 0 <= i < |g.trades|
      ensures IsPaid(flat[i].Fill(g.trades[i].amount, g.trades[i].total), flat[i], g.trades[i])
    {
      FitIsPaid(taker, flat, priced, s, i, g.trades[i]);
    }
    BookedArePaid(flat, g);
  }

  predicate IsPaid(now: Ord, was: Ord, trade: Trade) {
    PaidOwnPrice(now, was) && now.filled == was.filled + trade.amount
  }

  lemma FitIsPaid(taker: Ord, flat: seq<Ord>, priced: bool, s: Side, i: nat, trade: Trade)
    requires AllRest(flat, s) && i < |flat| && TradeFits(taker, flat, priced, i, trade)
    ensures IsPaid(flat[i].Fill(trade.amount, trade.total), flat[i], trade)
  {
    assert flat[i] in flat;
    hide Accepts, Ahead;
  }

  lemma BookedArePaid(flat: seq<Ord>, g: Fills)
    requires Booked(flat, g)
    requires forall i :: 0 <= i < |g.trades| ==>
      IsPaid(flat[i].Fill(g.trades[i].amount, g.trades[i].total), flat[i], g.trades[i])
    ensures |g.trades| <= |flat| && |g.filled| <= |g.trades| <= |g.filled| + 1
    ensures forall i :: 0 <= i < |g.filled| ==>
      PaidOwnPrice(g.filled[i], flat[i]) && g.filled[i].filled == flat[i].filled + g.trades[i].amount
    ensures |g.filled| < |g.trades| ==>
      var i := |g.filled|;
      g.rest != [] && PaidOwnPrice(g.rest[0], flat[i]) && g.rest[0].filled == flat[i].filled + g.trades[i].amount
  {
    hide PaidOwnPrice, Ord.Fill;
    assert forall i :: 0 <= i < |g.trades| ==>
      IsPaid(flat[i].Fill(g.trades[i].amount, g.trades[i].total), flat[i], g.trades[i]);
  }

  // ------------------------------------------------------------------ the trades of a match, against the whole side

  /** The trades are with the leading orders of the list, one each. */
  ghost predicate TradesFit(ts: seq<Trade>, taker: Ord, flat: seq<Ord>, priced: bool) {
    |ts| <= |flat| && forall i :: 0 <= i < |ts| ==> TradeFits(taker, flat, priced, i, ts[i])
  }

  lemma FitsLonger(ts: seq<Trade>, taker: Ord, flat: seq<Ord>, more: seq<Ord>, priced: bool)
    requires TradesFit(ts, taker, flat, priced)
    ensures TradesFit(ts, taker, flat + more, priced)
  {
    forall i | 0 <= i < |ts|
      ensures TradeFits(taker, flat + more, priced, i, ts[i])
    {
      assert TradeFits(taker, flat, priced, i, ts[i]) && (flat + more)[..i] == flat[..i];
    }
  }

  /** Down the list, prices never get better. */
  ghost predicate Worsens(flat: seq<Ord>, s: Side) {
    forall i, j :: 0 <= i < j < |flat| ==> !Before(Desc(s), flat[j].price, flat[i].price)
  }

  lemma WorsensTogether(q: seq<Ord>, more: seq<Ord>, price: real, s: Side)
    requires (forall o <- q :: o.price == price) && Worsens(more, s)
    requires forall o <- more :: Before(Desc(s), price, o.price)
    ensures Worsens(q + more, s)
  {
    var flat := q + more;
    forall i, j | 0 <= i < j < |flat|
      ensures !Before(Desc(s), flat[j].price, flat[i].price)
    {
      assert i < |q| ==> q[i] in q;
      assert j < |q| ==> q[j] in q;
      assert j >= |q| ==> more[j - |q|] in more;
    }
  }

  lemma {:induction false} FlattenWorsens(levels: seq<Level>, s: Side)
    requires SideOk(levels, s)
    ensures Worsens(Flatten(levels), s) && forall o <- Flatten(levels) :: exists l <- levels :: o.price == l.price
  {
    if levels != [] {
      SideOkTail(levels, s);
      FlattenWorsens(levels[1..], s);
      FirstLevel(levels, s);
      assert forall o <- levels[0].queue :: o.price == levels[0].price;
      assert levels[0] in levels && forall l <- levels[1..] :: l in levels;
      hide SideOk, Before, Rests, Worsens;
      WorsensTogether(levels[0].queue, Flatten(levels[1..]), levels[0].price, s);
    }
  }

  /** The last trade of a match is at the worst price that it traded at. */
  lemma LastIsWorst(ts: seq<Trade>, taker: Ord, levels: seq<Level>, s: Side, priced: bool)
    requires SideOk(levels, s) && s == taker.side.Opposite() && ts != []
    requires TradesFit(ts, taker, Flatten(levels), priced)
    ensures var n, flat := |ts|, Flatten(levels);
      && n <= |flat| && ts[n - 1].price == flat[n - 1].price
      && forall t <- ts :: if taker.side == Buy then t.price <= ts[n - 1].price else t.price >= ts[n - 1].price
  {
    FlattenWorsens(levels, s);
    hide SideOk, Flatten;
    var n, flat := |ts|, Flatten(levels);
    forall i | 0 <= i < n
      ensures if taker.side == Buy then ts[i].price <= ts[n - 1].price else ts[i].price >= ts[n - 1].price
    {
      assert TradeFits(taker, flat, priced, i, ts[i]) && TradeFits(taker, flat, priced, n - 1, ts[n - 1]);
    }
  }

  // ------------------------------------------------------------------ each order's own books

  /** A limit order never pays more, or gets less, than its price. */
  predicate Fair(o: Ord) {
    o.kind == Limit ==>
      if o.side == Buy then o.filledTotal <= o.price * o.filled else o.filledTotal >= o.price * o.filled
  }

  lemma FairFill(o: Ord, price: real, amt: real)
    requires Fair(o) && amt >= 0.0
    requires o.kind == Limit ==> if o.side == Buy then price <= o.price else o.price <= price
    ensures Fair(o.Fill(amt, Cost(price, amt)))
  {
    assert (o.price - price) * amt == o.price * amt - Cost(price, amt);
    assert o.price * (o.filled + amt) == o.price * o.filled + o.price * amt;
    if o.kind == Limit {
      if o.side == Buy {
        Product(o.price - price, amt);
      } else {
        Product(price - o.price, amt);
      }
    }
  }

  lemma Product(a: real, b: real)
    requires a >= 0.0 && b >= 0.0
    ensures a * b >= 0.0
  {
  }

  lemma {:induction false} GreedyOrders(taker: Ord, flat: seq<Ord>, priced: bool, s: Side)
    requires taker.Kept() && (taker.remain > 0.0 ==> taker.Open()) && AllRest(flat, s) && taker.side == s.Opposite()
    requires Fair(taker) && (taker.kind == Limit ==> priced) && forall o <- flat :: Fair(o)
    ensures var g := Greedy(taker, flat, priced);
      && g.taker.Kept() && Fair(g.taker)
      && (forall o <- g.filled :: Spent(o) && Fair(o) && o.side == s && o.kind == Limit)
      && (forall o <- g.rest :: Rests(o, s, o.price) && Fair(o))
    decreases |flat|
  {
    hide Cost;
    if taker.remain > 0.0 && flat != [] && Accepts(taker, priced, flat[0].price) {
      assert flat[0] in flat;
      OneFill(taker, flat[0], s);
      var price, amt := flat[0].price, Min(taker.remain, flat[0].remain);
      var t, m := taker.Fill(amt, Cost(price, amt)), flat[0].Fill(amt, Cost(price, amt));
      FairFill(taker, price, amt);
      FairFill(flat[0], price, amt);
      if m.remain == 0.0 {
        GreedyOrders(t, flat[1..], priced, s);
      }
    }
  }
}
