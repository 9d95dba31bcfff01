/** When a book stays uncrossed: always under GTC and market orders and cancels, and exactly when under the other
    times in force. */
module Uncrossed {
  import opened Models
  import opened SortedKeys
  import opened BookSpec
  import opened MatchLaws
  import opened LimitLaws
  import opened BookLaws
  import opened Runs

  /** The best bid is strictly below the best ask. */
  predicate IsUncrossed(b: Book) { b.bids != [] && b.asks != [] ==> b.bids[0].price < b.asks[0].price }

  /** Nothing on the opposite side is at a price that the order accepts. */
  predicate Clear(o: Ord, levels: seq<Level>) { levels == [] || !Accepts(o, true, levels[0].price) }

  lemma AddedBest(s: Side, levels: seq<Level>, o: Ord)
    requires SideOk(levels, s)
    ensures var a := AddTo(s, levels, o);
      var better := levels == [] || Before(Desc(s), o.price, levels[0].price);
      a != [] && a[0].price == if better then o.price else levels[0].price
  {
    var front, at, back := AddSplits(s, levels, o);
    if front != [] { assert front[0] in front; }
    if front == [] && back != [] { assert back[0] in back; }
  }

  /** Resting an order keeps the book uncrossed exactly when the opposite side is clear of it. */
  lemma AddUncrossedIff(b: Book, o: Ord)
    requires BookOk(b) && IsUncrossed(b)
    ensures IsUncrossed(Add(b, o)) <==> Clear(o, b.Of(o.side.Opposite()))
  {
    AddedBest(o.side, b.Of(o.side), o);
    hide AddTo, SideOk;
  }

  /** Taking the best levels of one side away cannot cross the book. */
  lemma MatchedUncrossed(b: Book, s: Side, left: seq<Level>)
    requires BookOk(b) && IsUncrossed(b) && LeavesSide(b.Of(s), left, s)
    ensures BookOk(b.With(s, left)) && IsUncrossed(b.With(s, left))
    ensures left != [] ==> left[0].price == b.Of(s)[0].price || Before(Desc(s), b.Of(s)[0].price, left[0].price)
  {
    var levels := b.Of(s);
    if left != [] {
      assert Prices(left)[0] == Prices(levels)[|levels| - |left|];
      if |left| < |levels| { assert Before(Desc(s), Prices(levels)[0], Prices(levels)[|levels| - |left|]); }
    }
  }

  lemma ProcessUncrossedIff(b: Book, o: Ord)
    requires BookOk(b) && IsUncrossed(b) && o.Fresh()
    ensures var m := Matched(o, b.Of(o.side.Opposite()));
      IsUncrossed(Process(b, o).book) <==> (GoesToBook(m.taker) ==> Clear(o, m.levels))
  {
    var s := o.side.Opposite();
    var levels := b.Of(s);
    var m := Matched(o, levels);
    MatchLeaves(o, levels, s);
    MatchedUncrossed(b, s, m.levels);
    hide Matched, Add, GoesToBook, BookOk, LeavesSide, IsUncrossed;
    if GoesToBook(m.taker) {
      AddUncrossedIff(b.With(s, m.levels), m.taker);
    }
  }

  lemma MatchLeaves(o: Ord, levels: seq<Level>, s: Side)
    requires SideOk(levels, s) && o.Fresh()
    ensures LeavesSide(levels, Matched(o, levels).levels, s) && SameTerms(Matched(o, levels).taker, o)
  {
    hide Matched, Greedy, Reach, LeavesSide, SideOk, Flatten;
    FreshIsFair(o);
    MatchedIsGreedy(o, levels, s);
    GreedyTerms(o, Reach(o, levels), o.kind == Limit);
  }

  // ------------------------------------------------------------------ GTC and market orders, and cancels

  predicate Plain(c: Cmd) { c.Submit? && c.o.kind == Limit ==> c.o.tif !in {IOC, FOK, GTX} }

  lemma PlainStepUncrossed(r: Run, c: Cmd)
    requires Inv(r) && IsUncrossed(r.book) && Admissible(r, c) && Plain(c)
    ensures IsUncrossed(Step(r, c).book)
  {
    hide Inv, Step, IsUncrossed, Ord.Fresh, InUse;
    match c
    case Submit(o) =>
      PlainSubmitUncrossed(r, o);
    case Withdraw(id) =>
      WithdrawUncrossed(r, id);
  }

  lemma PlainSubmitUncrossed(r: Run, o: Ord)
    requires Inv(r) && IsUncrossed(r.book) && o.Fresh() && Plain(Submit(o))
    ensures IsUncrossed(Step(r, Submit(o)).book)
  {
    hide *;
    var s := o.side.Opposite();
    FreshIsFair(o);
    StepIs(r, o);
    InvParts(r, s);
    ProcessUncrossedIff(r.book, o);
    SideIsLeft(o, r.book.Of(s), o.kind == Limit, s);
    PlainClears(o, r.book.Of(s));
  }

  /** What a plain order leaves of the other side, it does not accept. */
  lemma PlainClears(o: Ord, levels: seq<Level>)
    requires Plain(Submit(o)) && o.Fresh()
    requires var m, priced := MatchSide(o, levels, o.kind == Limit), o.kind == Limit;
      && SameTerms(m.taker, o)
      && (m.taker.remain > 0.0 ==> m.levels == [] || !Accepts(o, priced, m.levels[0].price))
    ensures var m := Matched(o, levels); GoesToBook(m.taker) ==> Clear(o, m.levels)
  {
    hide MatchSide, Scan, Accepts;
  }

  /** No cancel brings a side closer to the other, not even one that takes a whole level out of its tree. */
  lemma WithdrawUncrossed(r: Run, id: nat)
    requires Inv(r) && IsUncrossed(r.book)
    ensures IsUncrossed(Step(r, Withdraw(id)).book)
  {
    hide *;
    WithdrawCases(r, id);
    InvParts(r, Buy);
    InvParts(r, Sell);
    if SideHas(r.book.Of(Buy), id) {
      TakeOutUncrossed(r, id, Buy);
    } else if SideHas(r.book.Of(Sell), id) {
      TakeOutUncrossed(r, id, Sell);
    } else if SideHas(r.strays, id) {
      var x := StraySpot(r, id);
      TakenStray(r, id);
      LoseLevelUncrossed(TakeStray(r, id), x.side, x.price);
    } else {
      ForgottenBook(r, id);
      if id in r.spent { LoseLevelUncrossed(ForgetSpent(r, id), r.spent[id].side, r.spent[id].price); }
    }
  }

  lemma TakeOutUncrossed(r: Run, id: nat, s: Side)
    requires BookOk(r.book) && IsUncrossed(r.book) && SideHas(r.book.Of(s), id)
    ensures IsUncrossed(TakeOut(r, id, s).book)
  {
    hide CancelIn, Swept, Resting, SideOk;
    CancelBest(r.book.Of(s), id, s);
  }

  lemma LoseLevelUncrossed(r: Run, s: Side, price: real)
    requires BookOk(r.book) && IsUncrossed(r.book)
    ensures IsUncrossed(LoseLevel(r, s, price).book)
  {
    LostParts(r, s, price);
    var ls, k := r.book.Of(s), PlaceOf(s, r.book.Of(s), price);
    hide LoseLevel, HasPrice, PlaceOf;
    if HasPrice(s, ls, price) && |ls| > 1 {
      assert Before(Desc(s), Prices(ls)[0], Prices(ls)[1]);
    }
  }

  lemma CancelBest(levels: seq<Level>, id: nat, s: Side)
    requires SideOk(levels, s) && SideHas(levels, id)
    ensures var c := CancelIn(levels, id);
      c != [] ==> c[0].price == levels[0].price || Before(Desc(s), levels[0].price, c[0].price)
  {
    CancelKeeps(levels, id, s, Remain);
    var c := CancelIn(levels, id);
    if c != [] {
      assert c[0] in c;
      var m :| m in levels && m.price == c[0].price;
      var i :| 0 <= i < |levels| && levels[i] == m;
      var ps := Prices(levels);
      if i > 0 { assert Before(Desc(s), ps[0], ps[i]); }
    }
  }

  /** In every run of GTC limit orders, market orders and cancels of any ID, the book is never locked or crossed. */
  lemma {:induction false} NeverCrossed(r: Run, log: seq<Cmd>)
    requires Inv(r) && IsUncrossed(r.book) && Admitted(r, log) && forall c <- log :: Plain(c)
    ensures IsUncrossed(After(r, log).book)
    decreases |log|
  {
    if log != [] {
      assert log[0] in log;
      PlainStepUncrossed(r, log[0]);
      StepKeepsInvariant(r, log[0]);
      hide Step, Inv, IsUncrossed, Plain;
      NeverCrossed(Step(r, log[0]), log[1..]);
    }
  }

  // ------------------------------------------------------------------ the other times in force

  /** Exactly when an order leaves the book uncrossed, whatever its time in force: an IOC or GTX order stops after the
      best level, and a killed FOK order rests although it crosses. */
  predicate KeepsUncrossed(o: Ord, levels: seq<Level>) {
    match o.tif
    case FOK => Scan(o, levels, 0.0) >= o.remain || Clear(o, levels)
    case IOC => Clear(o, levels) || o.remain <= Held(levels[0]) || Clear(o, levels[1..])
    case GTX => Clear(o, levels) || o.remain <= Held(levels[0]) || Clear(o, levels[1..])
    case _ => true
  }

  lemma LimitUncrossedIff(b: Book, o: Ord)
    requires BookOk(b) && IsUncrossed(b) && o.Fresh() && o.kind == Limit && o.remain > 0.0
    ensures IsUncrossed(Process(b, o).book) <==> KeepsUncrossed(o, b.Of(o.side.Opposite()))
  {
    var s := o.side.Opposite();
    var levels := b.Of(s);
    FreshIsFair(o);
    ProcessUncrossedIff(b, o);
    SidesOf(b, o.side);
    hide Process, IsUncrossed, MatchSide, MatchOnce, Scan, SideOk, LeavesSide, BookOk, Held;
    if o.tif in {IOC, GTX} {
      OnceClear(o, levels, s);
    } else {
      SideIsLeft(o, levels, true, s);
    }
  }

  lemma OnceClear(o: Ord, levels: seq<Level>, s: Side)
    requires o.Open() && SideOk(levels, s)
    ensures var m := MatchOnce(o, levels);
      (GoesToBook(m.taker) ==> Clear(o, m.levels)) <==>
      (o.kind != Limit || Clear(o, levels) || o.remain <= Held(levels[0]) || Clear(o, levels[1..]))
  {
    if !Clear(o, levels) {
      assert levels[0] in levels;
      var q := levels[0].queue;
      BestIsLeft(o, levels, s);
      QueueVolume(o, levels[0].price, q, s);
    }
  }

  /** One level fills what is needed, or all that it holds. */
  lemma {:induction false} QueueVolume(o: Ord, price: real, q: seq<Ord>, s: Side)
    requires o.Kept() && (o.remain > 0.0 ==> o.Open()) && forall x <- q :: Rests(x, s, price)
    ensures var held := Sum(Remain, q);
      MatchQueue(o, price, q).taker.remain == if o.remain <= held then 0.0 else o.remain - held
    ensures Sum(Remain, q) >= 0.0
    decreases |q|
  {
    hide Cost;
    if q != [] {
      assert q[0] in q;
      QueueVolume(o, price, q[1..], s);
      if o.remain > 0.0 {
        OneFill(o, q[0], s);
        var amt := Min(o.remain, q[0].remain);
        QueueVolume(o.Fill(amt, Cost(price, amt)), price, q[1..], s);
      }
    }
  }
}
