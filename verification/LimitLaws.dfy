/** What the time-in-force rules make of greedy matching, and how market orders relate to limit orders. */
module LimitLaws {
  import opened Models
  import opened SortedKeys
  import opened BookSpec
  import opened MatchLaws

  /** The part of the opposite side that an order can get at. */
  function Reach(o: Ord, levels: seq<Level>): seq<Ord> {
    if o.kind == Market then Flatten(levels)
    else if o.kind != Limit then []
    else match o.tif
      case FOK => if Scan(o, levels, 0.0) < o.remain then [] else Flatten(levels)
      case IOC => if levels == [] then [] else levels[0].queue
      case GTX => if levels == [] then [] else levels[0].queue
      case _ => Flatten(levels)
  }

  ghost predicate FillsFrom(r: Result, g: Fills, levels: seq<Level>, reach: seq<Ord>, s: Side) {
    && r.taker == g.taker && r.filled == g.filled && r.trades == g.trades
    && reach <= Flatten(levels) && Flatten(r.levels) == g.rest + Flatten(levels)[|reach|..]
    && LeavesSide(levels, r.levels, s)
  }

  lemma OnceIsGreedy(o: Ord, levels: seq<Level>, s: Side)
    requires o.Kept() && (o.remain > 0.0 ==> o.Open()) && SideOk(levels, s)
    ensures var reach := if levels == [] then [] else levels[0].queue;
      FillsFrom(MatchOnce(o, levels), Greedy(o, reach, true), levels, reach, s)
  {
    hide Cost, Greedy, MatchQueue;
    if levels == [] || o.remain <= 0.0 || !Accepts(o, true, levels[0].price) {
      OnceUntouched(o, levels, s);
    } else {
      var q := levels[0].queue;
      assert levels[0] in levels;
      QueueIsGreedy(o, levels[0].price, q, [], s, true);
      assert q + [] == q;
      BestIsLeft(o, levels, s);
      NothingMore(MatchQueue(o, levels[0].price, q));
      var f, r := MatchQueue(o, levels[0].price, q), MatchBest(o, levels);
      assert f.rest != [] ==> r.levels[1..] == levels[1..];
      assert Flatten(levels)[|q|..] == Flatten(levels[1..]);
    }
  }

  lemma NothingMore(f: Fills)
    ensures Prefixed(f.filled, f.trades, Greedy(f.taker, [], true)) == f.(rest := [])
    ensures f.rest + [] == f.rest
  {
  }

  lemma OnceUntouched(o: Ord, levels: seq<Level>, s: Side)
    requires SideOk(levels, s) && (levels == [] || o.remain <= 0.0 || !Accepts(o, true, levels[0].price))
    ensures var reach := if levels == [] then [] else levels[0].queue;
      FillsFrom(MatchOnce(o, levels), Greedy(o, reach, true), levels, reach, s)
  {
    NothingHappens(o, levels, s);
    assert levels != [] ==> levels[0] in levels && levels[0].queue[0] in levels[0].queue;
  }

  lemma WholeSideIsGreedy(o: Ord, levels: seq<Level>, priced: bool, s: Side)
    requires o.Kept() && (o.remain > 0.0 ==> o.Open()) && SideOk(levels, s)
    ensures FillsFrom(MatchSide(o, levels, priced), Greedy(o, Flatten(levels), priced), levels, Flatten(levels), s)
  {
    SideIsGreedy(o, levels, priced, s);
    SideIsLeft(o, levels, priced, s);
    hide MatchSide, Greedy;
    assert Flatten(levels)[|Flatten(levels)|..] == [];
  }

  lemma UntouchedIsGreedy(o: Ord, levels: seq<Level>, priced: bool, s: Side)
    requires SideOk(levels, s)
    ensures FillsFrom(Result(o, levels, [], []), Greedy(o, [], priced), levels, [], s)
  {
    NothingHappens(o, levels, s);
    assert Flatten(levels)[0..] == Flatten(levels);
  }

  /** Every matcher is the greedy fill of what its order can reach, and leaves everything else alone. */
  lemma MatchedIsGreedy(o: Ord, levels: seq<Level>, s: Side)
    requires o.Kept() && (o.remain > 0.0 ==> o.Open()) && SideOk(levels, s)
    ensures FillsFrom(Matched(o, levels), Greedy(o, Reach(o, levels), o.kind == Limit), levels, Reach(o, levels), s)
  {
    hide MatchSide, MatchOnce, Greedy, Flatten, Scan, FillsFrom, SideOk, Ord.Kept, Ord.Open;
    if o.kind == Limit && o.tif in {IOC, GTX} {
      OnceIsGreedy(o, levels, s);
    } else if o.kind in {Limit, Market} && !(o.kind == Limit && o.tif == FOK && Scan(o, levels, 0.0) < o.remain) {
      WholeSideIsGreedy(o, levels, o.kind == Limit, s);
    } else {
      UntouchedIsGreedy(o, levels, o.kind == Limit, s);
    }
  }

  /** The trades of a limit order are with the leading orders of the other side, whatever its time in force. */
  lemma LimitTradesFit(o: Ord, levels: seq<Level>, s: Side)
    requires o.Kept() && (o.remain > 0.0 ==> o.Open()) && SideOk(levels, s)
    ensures TradesFit(LimitMatch(o, levels).trades, o, Flatten(levels), true)
  {
    hide *;
    LimitTries(o, levels);
    FlattenRests(levels, s);
    NoneFit(o, Flatten(levels));
    SideIsGreedy(o, levels, true, s);
    GreedyTrades(o, Flatten(levels), true, s);
    GreedyFit(o, Flatten(levels), true);
    if levels != [] {
      var q := levels[0].queue;
      FirstQueue(levels, s);
      OnceIsGreedy(o, levels, s);
      OnceTrades(o, levels, s);
      GreedyTrades(o, q, true, s);
      GreedyFit(o, q, true);
      FitsLonger(Greedy(o, q, true).trades, o, q, Flatten(levels[1..]), true);
    }
  }

  lemma MarketTradesFit(o: Ord, levels: seq<Level>, s: Side)
    requires o.Kept() && (o.remain > 0.0 ==> o.Open()) && SideOk(levels, s)
    ensures TradesFit(MarketMatch(o, levels).trades, o, Flatten(levels), false)
  {
    hide *;
    MarketIs(o, levels);
    FlattenRests(levels, s);
    SideIsGreedy(o, levels, false, s);
    GreedyTrades(o, Flatten(levels), false, s);
    GreedyFit(o, Flatten(levels), false);
  }

  lemma MarketIs(o: Ord, levels: seq<Level>)
    ensures MarketMatch(o, levels) == MatchSide(o, levels, false)
  {
  }

  /** Whatever the type: the trades of a match are with the leading orders of the other side. */
  lemma MatchedTradesFit(o: Ord, levels: seq<Level>, s: Side)
    requires o.Kept() && (o.remain > 0.0 ==> o.Open()) && SideOk(levels, s)
    ensures TradesFit(Matched(o, levels).trades, o, Flatten(levels), o.kind == Limit)
  {
    LimitTradesFit(o, levels, s);
    MarketTradesFit(o, levels, s);
    hide LimitMatch, MarketMatch, TradeFits, Flatten, SideOk;
  }

  /** What a limit match can come down to. */
  lemma LimitTries(o: Ord, levels: seq<Level>)
    ensures var ts := LimitMatch(o, levels).trades;
      ts == [] || ts == MatchSide(o, levels, true).trades || (levels != [] && ts == MatchOnce(o, levels).trades)
  {
    hide MatchSide, MatchBest, Scan, Accepts;
  }

  lemma NoneFit(o: Ord, flat: seq<Ord>)
    ensures TradesFit([], o, flat, true)
  {
  }

  lemma GreedyFit(o: Ord, flat: seq<Ord>, priced: bool)
    requires var ts := Greedy(o, flat, priced).trades;
      |ts| <= |flat| && forall i :: 0 <= i < |ts| ==> TradeFits(o, flat, priced, i, ts[i])
    ensures TradesFit(Greedy(o, flat, priced).trades, o, flat, priced)
  {
    hide Greedy, TradeFits;
  }

  lemma FirstQueue(levels: seq<Level>, s: Side)
    requires SideOk(levels, s) && levels != []
    ensures AllRest(levels[0].queue, s) && Flatten(levels) == levels[0].queue + Flatten(levels[1..])
  {
    assert levels[0] in levels;
  }

  lemma OnceTrades(o: Ord, levels: seq<Level>, s: Side)
    requires levels != []
    requires FillsFrom(MatchOnce(o, levels), Greedy(o, levels[0].queue, true), levels, levels[0].queue, s)
    ensures MatchOnce(o, levels).trades == Greedy(o, levels[0].queue, true).trades
  {
    hide MatchOnce, Greedy, Flatten, LeavesSide;
  }

  // ------------------------------------------------------------------ fill or kill

  /** The leading orders of a list that a limit order may trade with. */
  function Crossing(o: Ord, flat: seq<Ord>): seq<Ord> {
    if flat == [] || !Accepts(o, true, flat[0].price) then [] else [flat[0]] + Crossing(o, flat[1..])
  }

  function CrossVolume(o: Ord, levels: seq<Level>): real { Sum(Remain, Crossing(o, Flatten(levels))) }

  /** A greedy fill trades what is needed, or all that crosses. */
  lemma {:induction false} GreedyFillsWhatCrosses(o: Ord, flat: seq<Ord>, s: Side)
    requires o.Kept() && (o.remain > 0.0 ==> o.Open()) && AllRest(flat, s)
    ensures Sum(Remain, Crossing(o, flat)) >= 0.0
    ensures Volume(Greedy(o, flat, true).trades) == Min(o.remain, Sum(Remain, Crossing(o, flat)))
    ensures Greedy(o, flat, true).taker.remain == o.remain - Volume(Greedy(o, flat, true).trades)
    decreases |flat|
  {
    hide Cost;
    if flat != [] && Accepts(o, true, flat[0].price) {
      assert flat[0] in flat;
      GreedyFillsWhatCrosses(o, flat[1..], s);
      if o.remain > 0.0 {
        OneFill(o, flat[0], s);
        var price, amt := flat[0].price, Min(o.remain, flat[0].remain);
        var t := o.Fill(amt, Cost(price, amt));
        GreedyFillsWhatCrosses(t, flat[1..], s);
        SameCrossing(o, t, flat[1..]);
      }
    }
  }

  lemma {:induction false} SameCrossing(o: Ord, t: Ord, flat: seq<Ord>)
    requires SameTerms(t, o)
    ensures Crossing(t, flat) == Crossing(o, flat)
  {
    if flat != [] { SameCrossing(o, t, flat[1..]); }
  }

  function Held(l: Level): real { Sum(Remain, l.queue) }

  ghost predicate TotalsCover(levels: seq<Level>) { forall l <- levels :: l.total >= Held(l) }

  ghost predicate TotalsExact(levels: seq<Level>) { forall l <- levels :: l.total == Held(l) }

  lemma {:induction false} CrossingConcat(o: Ord, q: seq<Ord>, more: seq<Ord>)
    requires forall m <- q :: Accepts(o, true, m.price)
    ensures Crossing(o, q + more) == q + Crossing(o, more)
  {
    if q == [] {
      assert q + more == more;
    } else {
      assert q[0] in q && (q + more)[1..] == q[1..] + more;
      CrossingConcat(o, q[1..], more);
    }
  }

  /** The volume that crosses, level by level. */
  lemma CrossVolumeStep(o: Ord, levels: seq<Level>, s: Side)
    requires SideOk(levels, s) && levels != []
    ensures CrossVolume(o, levels) ==
      if Accepts(o, true, levels[0].price) then Held(levels[0]) + CrossVolume(o, levels[1..]) else 0.0
  {
    assert levels[0] in levels;
    var q := levels[0].queue;
    if Accepts(o, true, levels[0].price) {
      CrossingConcat(o, q, Flatten(levels[1..]));
      SumConcat(Remain, q, Crossing(o, Flatten(levels[1..])));
    } else {
      assert q[0] in q;
    }
  }

  lemma {:induction false} HeldIsPositive(q: seq<Ord>)
    requires forall o <- q :: o.remain >= 0.0
    ensures Sum(Remain, q) >= 0.0
  {
    if q != [] { assert q[0] in q; HeldIsPositive(q[1..]); }
  }

  lemma {:induction false} CrossVolumeNonNegative(o: Ord, levels: seq<Level>, s: Side)
    requires SideOk(levels, s)
    ensures CrossVolume(o, levels) >= 0.0
  {
    if levels != [] {
      CrossVolumeStep(o, levels, s);
      SideOkTail(levels, s);
      CrossVolumeNonNegative(o, levels[1..], s);
      assert levels[0] in levels;
      HeldIsPositive(levels[0].queue);
    }
  }

  /** The scan sees at least the crossing volume that it needs to see; on exact totals it sees no more than there is. */
  lemma {:induction false} ScanSees(o: Ord, levels: seq<Level>, found: real, s: Side)
    requires SideOk(levels, s) && TotalsCover(levels)
    ensures Scan(o, levels, found) < o.remain ==> found + CrossVolume(o, levels) < o.remain
    ensures TotalsExact(levels) && found + CrossVolume(o, levels) < o.remain ==> Scan(o, levels, found) < o.remain
    decreases |levels|
  {
    if levels != [] {
      CrossVolumeStep(o, levels, s);
      assert levels[0] in levels;
      if Accepts(o, true, levels[0].price) {
        SideOkTail(levels, s);
        CrossVolumeNonNegative(o, levels[1..], s);
        ScanSees(o, levels[1..], found + levels[0].total, s);
        if o.remain > found + levels[0].total { ScanSees(o, levels[1..], found + Held(levels[0]), s); }
      }
    }
  }

  lemma {:induction false} FlattenRests(levels: seq<Level>, s: Side)
    requires SideOk(levels, s)
    ensures AllRest(Flatten(levels), s)
  {
    if levels != [] {
      assert levels[0] in levels;
      SideOkTail(levels, s);
      FlattenRests(levels[1..], s);
    }
  }

  predicate IsFok(o: Ord) { o.kind == Limit && o.tif == FOK && o.Open() }

  /** With exact level totals a FOK order is filled completely when enough crosses, and changes nothing otherwise. */
  lemma FokIsAllOrNothing(o: Ord, levels: seq<Level>, s: Side)
    requires IsFok(o) && SideOk(levels, s) && TotalsExact(levels)
    ensures var r := Matched(o, levels);
      if CrossVolume(o, levels) >= o.remain then r.taker.remain == 0.0 && Volume(r.trades) == o.remain
      else r == Result(o, levels, [], [])
  {
    ScanSees(o, levels, 0.0, s);
    FokTrades(o, levels, s);
  }

  lemma FokTrades(o: Ord, levels: seq<Level>, s: Side)
    requires IsFok(o) && SideOk(levels, s)
    ensures var r := Matched(o, levels);
      if Scan(o, levels, 0.0) < o.remain then r == Result(o, levels, [], [])
      else Volume(r.trades) == Min(o.remain, CrossVolume(o, levels)) && r.taker.remain == o.remain - Volume(r.trades)
  {
    hide Greedy, Flatten, Scan, Matched, Crossing, SideOk, Sum, Volume, AllRest;
    FokCases(o, levels, s);
    FlattenRests(levels, s);
    GreedyFillsWhatCrosses(o, Flatten(levels), s);
  }

  lemma FokCases(o: Ord, levels: seq<Level>, s: Side)
    requires IsFok(o) && SideOk(levels, s)
    ensures var r, g := Matched(o, levels), Greedy(o, Flatten(levels), true);
      if Scan(o, levels, 0.0) < o.remain then r == Result(o, levels, [], [])
      else r.taker == g.taker && r.trades == g.trades
  {
    hide Greedy, Flatten, Scan, MatchSide, LeavesSide, SideOk;
    MatchedIsGreedy(o, levels, s);
  }

  /** Totals that only err upwards never kill a FOK order that could have been filled. */
  lemma FokKilledLacksVolume(o: Ord, levels: seq<Level>, s: Side)
    requires IsFok(o) && SideOk(levels, s) && TotalsCover(levels) && Scan(o, levels, 0.0) < o.remain
    ensures CrossVolume(o, levels) < o.remain && Matched(o, levels) == Result(o, levels, [], [])
  {
    ScanSees(o, levels, 0.0, s);
  }

  /** With drifted totals, exactly this decides whether a FOK order escapes a partial fill. */
  lemma FokIsNeverPartialIff(o: Ord, levels: seq<Level>, s: Side)
    requires IsFok(o) && SideOk(levels, s) && TotalsCover(levels)
    ensures var r := Matched(o, levels);
      r.taker.remain == 0.0 || r.trades == [] <==>
      Scan(o, levels, 0.0) < o.remain || CrossVolume(o, levels) >= o.remain || CrossVolume(o, levels) == 0.0
  {
    hide Greedy, Flatten, Scan, Matched, CrossVolume, SideOk, AllRest, TotalsCover;
    FokTrades(o, levels, s);
    FokCases(o, levels, s);
    CrossVolumeNonNegative(o, levels, s);
    FlattenRests(levels, s);
    TradesArePositive(o, Flatten(levels), s);
  }

  lemma TradesArePositive(o: Ord, flat: seq<Ord>, s: Side)
    requires o.Open() && AllRest(flat, s)
    ensures var g := Greedy(o, flat, true); g.trades == [] <==> Volume(g.trades) == 0.0
  {
    GreedyFillsWhatCrosses(o, flat, s);
    if flat != [] && Accepts(o, true, flat[0].price) {
      assert flat[0] in flat;
      OneFill(o, flat[0], s);
      assert AllRest(flat[1..], s);
      GreedyFillsWhatCrosses(o, flat[1..], s);
    }
  }

  // ------------------------------------------------------------------ market orders

  /** The same order, priced. */
  ghost predicate Disguised(m: Ord, l: Ord) { l == m.(kind := l.kind, tif := l.tif, price := l.price) }

  lemma {:induction false} SameQueueFill(m: Ord, l: Ord, price: real, q: seq<Ord>)
    requires Disguised(m, l)
    ensures var f, g := MatchQueue(m, price, q), MatchQueue(l, price, q);
      Disguised(f.taker, g.taker) && f.rest == g.rest && f.filled == g.filled && f.trades == g.trades
    decreases |q|
  {
    hide Cost;
    if m.remain > 0.0 && q != [] && q[0].remain > 0.0 {
      var amt := Min(m.remain, q[0].remain);
      SameQueueFill(m.Fill(amt, Cost(price, amt)), l.Fill(amt, Cost(price, amt)), price, q[1..]);
    }
  }

  lemma {:induction false} SameSideFill(m: Ord, l: Ord, levels: seq<Level>)
    requires Disguised(m, l) && forall lv <- levels :: Accepts(l, true, lv.price)
    ensures var r, t := MatchSide(m, levels, false), MatchSide(l, levels, true);
      Disguised(r.taker, t.taker) && r.levels == t.levels && r.filled == t.filled && r.trades == t.trades
    decreases |levels|
  {
    if m.remain > 0.0 && levels != [] {
      assert levels[0] in levels;
      SameQueueFill(m, l, levels[0].price, levels[0].queue);
      SameLimits(l, levels[0].price, levels[0].queue);
      var r := MatchBest(m, levels);
      if |r.levels| < |levels| { SameSideFill(r.taker, MatchBest(l, levels).taker, levels[1..]); }
    }
  }

  /** A market order trades like the same order with a limit at or beyond the worst opposite level. */
  lemma MarketIsDeepLimit(m: Ord, l: Ord, levels: seq<Level>, s: Side)
    requires m.kind == Market && l.kind == Limit && l.tif !in {FOK, IOC, GTX} && Disguised(m, l)
    requires SideOk(levels, s) && s == m.side.Opposite()
    requires levels != [] ==> Accepts(l, true, levels[|levels| - 1].price)
    ensures var r, t := Matched(m, levels), Matched(l, levels);
      Disguised(r.taker, t.taker) && r.levels == t.levels && r.filled == t.filled && r.trades == t.trades
  {
    forall lv | lv in levels
      ensures Accepts(l, true, lv.price)
    {
      var i :| 0 <= i < |levels| && levels[i] == lv;
      var ps := Prices(levels);
      if i < |levels| - 1 { assert Before(Desc(s), ps[i], ps[|levels| - 1]); }
    }
    SameSideFill(m, l, levels);
  }
}
