/** What an order book is, on values: two lists of price levels, best price first, each a queue of orders in order of
    arrival. What matching, resting and cancelling do to it. */
module BookSpec {
  import opened Models
  import opened SortedKeys

  datatype Level = Level(price: real, queue: seq<Ord>, total: real)

  datatype Book = Book(bids: seq<Level>, asks: seq<Level>) {
    function Of(s: Side): seq<Level> { if s == Buy then bids else asks }
    function With(s: Side, levels: seq<Level>): Book {
      if s == Buy then this.(bids := levels) else this.(asks := levels)
    }
  }

  function Desc(s: Side): bool { s == Buy }

  function Prices(levels: seq<Level>): (ps: seq<real>)
    ensures |ps| == |levels| && forall i :: 0 <= i < |levels| ==> ps[i] == levels[i].price
  {
    seq(|levels|, i requires 0 <= i < |levels| => levels[i].price)
  }

  // ------------------------------------------------------------------ well-formed books

  predicate Rests(o: Ord, s: Side, price: real) { o.Open() && o.side == s && o.price == price && o.kind == Limit }

  predicate LevelOk(l: Level, s: Side) { l.queue != [] && forall o <- l.queue :: Rests(o, s, l.price) }

  ghost predicate SideOk(levels: seq<Level>, s: Side) {
    Sorted(Desc(s), Prices(levels)) && forall l <- levels :: LevelOk(l, s)
  }

  ghost predicate BookOk(b: Book) { SideOk(b.bids, Buy) && SideOk(b.asks, Sell) }

  /** All orders of one side, best price first and then first in, first out. */
  function Flatten(levels: seq<Level>): seq<Ord> {
    if levels == [] then [] else levels[0].queue + Flatten(levels[1..])
  }

  // ------------------------------------------------------------------ matching

  /** May the taker trade at this price? Market orders (priced is false) may trade at any. */
  predicate Accepts(taker: Ord, priced: bool, price: real) {
    priced ==> if taker.side == Buy then price <= taker.price else taker.price <= price
  }

  datatype Fills = Fills(taker: Ord, rest: seq<Ord>, filled: seq<Ord>, trades: seq<Trade>)

  /** The taker against one queue at one price, from the front. */
  function MatchQueue(taker: Ord, price: real, q: seq<Ord>): Fills
    decreases |q|
  {
    if taker.remain <= 0.0 || q == [] || q[0].remain <= 0.0 then Fills(taker, q, [], [])
    else
      var amt := Min(taker.remain, q[0].remain);
      var t, m := taker.Fill(amt, Cost(price, amt)), q[0].Fill(amt, Cost(price, amt));
      var trade := NewTrade(taker.symbol, taker, q[0], price, amt);
      if m.IsFinished() then
        var r := MatchQueue(t, price, q[1..]);
        Fills(r.taker, r.rest, [m] + r.filled, [trade] + r.trades)
      else
        Fills(t, [m] + q[1..], [], [trade])
  }

  datatype Result = Result(taker: Ord, levels: seq<Level>, filled: seq<Ord>, trades: seq<Trade>)

  /** The taker against one level: an emptied level disappears. */
  function MatchBest(taker: Ord, levels: seq<Level>): Result
    requires levels != []
  {
    var f := MatchQueue(taker, levels[0].price, levels[0].queue);
    var left := if f.rest == [] then levels[1..] else [levels[0].(queue := f.rest)] + levels[1..];
    Result(f.taker, left, f.filled, f.trades)
  }

  /** The taker against one side of the book, level by level. */
  function MatchSide(taker: Ord, levels: seq<Level>, priced: bool): Result
    decreases |levels|
  {
    if taker.remain <= 0.0 || levels == [] || !Accepts(taker, priced, levels[0].price) then
      Result(taker, levels, [], [])
    else
      var r := MatchBest(taker, levels);
      if |r.levels| == |levels| then r
      else
        var s := MatchSide(r.taker, r.levels, priced);
        Result(s.taker, s.levels, r.filled + s.filled, r.trades + s.trades)
  }

  /** IOC and GTX orders trade at the best level only. */
  function MatchOnce(taker: Ord, levels: seq<Level>): Result {
    if taker.remain <= 0.0 || levels == [] || !Accepts(taker, true, levels[0].price) then
      Result(taker, levels, [], [])
    else MatchBest(taker, levels)
  }

  /** What a FOK order believes to be available: level totals, added up until they suffice. */
  function Scan(taker: Ord, levels: seq<Level>, found: real): real {
    if levels == [] || !Accepts(taker, true, levels[0].price) then found
    else
      var f := found + levels[0].total;
      if taker.remain > f then Scan(taker, levels[1..], f) else f
  }

  function LimitMatch(taker: Ord, levels: seq<Level>): Result {
    match taker.tif
    case FOK =>
      if Scan(taker, levels, 0.0) < taker.remain then Result(taker, levels, [], []) else MatchSide(taker, levels, true)
    case IOC => MatchOnce(taker, levels)
    case GTX => MatchOnce(taker, levels)
    case _ => MatchSide(taker, levels, true)
  }

  function MarketMatch(taker: Ord, levels: seq<Level>): Result { MatchSide(taker, levels, false) }

  /** The matcher that an order's type selects; stop orders are parked outside of the book and match nothing. */
  function Matched(o: Ord, levels: seq<Level>): Result {
    match o.kind
    case Limit => LimitMatch(o, levels)
    case Market => MarketMatch(o, levels)
    case _ => Result(o, levels, [], [])
  }

  // ------------------------------------------------------------------ resting and cancelling

  function PlaceOf(s: Side, levels: seq<Level>, price: real): nat { Rank(Desc(s), Prices(levels), price) }

  predicate HasPrice(s: Side, levels: seq<Level>, price: real) {
    var k := PlaceOf(s, levels, price);
    k < |levels| && levels[k].price == price
  }

  function Append(l: Level, o: Ord): Level { l.(queue := l.queue + [o], total := l.total + o.remain) }

  function AddTo(s: Side, levels: seq<Level>, o: Ord): seq<Level> {
    var k := PlaceOf(s, levels, o.price);
    if HasPrice(s, levels, o.price) then levels[k := Append(levels[k], o)]
    else levels[..k] + [Append(Level(o.price, [], 0.0), o)] + levels[k..]
  }

  function Add(b: Book, o: Ord): Book { b.With(o.side, AddTo(o.side, b.Of(o.side), o)) }

  predicate HasId(q: seq<Ord>, id: nat) { exists o <- q :: o.id == id }

  /** The queue without its first order with this id. */
  function RemoveId(q: seq<Ord>, id: nat): seq<Ord> {
    if q == [] then [] else if q[0].id == id then q[1..] else [q[0]] + RemoveId(q[1..], id)
  }

  function Find(q: seq<Ord>, id: nat): Ord
    requires HasId(q, id)
  {
    if q[0].id == id then q[0] else Find(q[1..], id)
  }

  function RemoveFromLevel(l: Level, id: nat): Level {
    if HasId(l.queue, id) then l.(queue := RemoveId(l.queue, id), total := l.total - Find(l.queue, id).remain) else l
  }

  predicate SideHas(levels: seq<Level>, id: nat) { exists l <- levels :: HasId(l.queue, id) }

  /** One side without the first order with this id, and without the level that it leaves empty. */
  function CancelIn(levels: seq<Level>, id: nat): seq<Level> {
    if levels == [] then []
    else if HasId(levels[0].queue, id) then
      var l := RemoveFromLevel(levels[0], id);
      if l.queue == [] then levels[1..] else [l] + levels[1..]
    else [levels[0]] + CancelIn(levels[1..], id)
  }

  function Cancel(b: Book, id: nat): Book {
    if SideHas(b.bids, id) then b.(bids := CancelIn(b.bids, id)) else b.(asks := CancelIn(b.asks, id))
  }

  /** A side without the level of one price. */
  function DropPrice(s: Side, ls: seq<Level>, price: real): seq<Level> {
    var k := PlaceOf(s, ls, price);
    if HasPrice(s, ls, price) then ls[..k] + ls[k + 1..] else ls
  }

  // ------------------------------------------------------------------ filled orders that the index keeps

  /** Where the level is now at which an indexed order was filled: in its tree, gone because it became empty, or taken
      out of its tree with orders in it, as the n-th level to which that happened. */
  datatype Home = Standing | Gone | Astray(n: nat)

  datatype Spot = Spot(side: Side, price: real, home: Home)

  /** Orders that have just been filled, by ID. */
  function FilledSpots(os: seq<Ord>): (spots: map<nat, Spot>)
    ensures forall id :: id in spots <==> HasId(os, id)
    ensures forall id <- spots :: exists o <- os :: o.id == id && spots[id] == Spot(o.side, o.price, Standing)
  {
    if os == [] then map[]
    else
      var n := |os| - 1;
      assert os == os[..n] + [os[n]];
      FilledSpots(os[..n])[os[n].id := Spot(os[n].side, os[n].price, Standing)]
  }

  /** The same orders once one side has become ls: a level that is no longer there has become empty. */
  function Swept(spots: map<nat, Spot>, s: Side, ls: seq<Level>): map<nat, Spot> {
    map id | id in spots :: var x := spots[id];
      if x.side == s && x.home.Standing? && !HasPrice(s, ls, x.price) then x.(home := Gone) else x
  }

  // ------------------------------------------------------------------ one order through the engine

  datatype Outcome = Outcome(book: Book, taker: Ord, filled: seq<Ord>, trades: seq<Trade>, rests: bool)

  /** What becomes of an order after matching. */
  function Settled(t: Ord): Ord {
    if t.kind == UnknownType then t.(status := Rejected)
    else if t.kind == Market && t.remain > 0.0 && !t.IsFinished() then t.(status := Cancelled)
    else t
  }

  predicate GoesToBook(t: Ord) { t.kind == Limit && t.remain > 0.0 && !t.IsFinished() }

  /** One submitted order: match it, then rest or cancel what is left. */
  function Process(b: Book, o: Ord): Outcome {
    var r := Matched(o, b.Of(o.side.Opposite()));
    var b1 := b.With(o.side.Opposite(), r.levels);
    var rests := GoesToBook(r.taker);
    Outcome(if rests then Add(b1, r.taker) else b1, Settled(r.taker), r.filled, r.trades, rests)
  }
}
