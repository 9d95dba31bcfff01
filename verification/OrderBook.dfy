/** The order book as the program holds it: two trees of price levels, a list of orders per level, and an index from
    order IDs to list elements. The three must agree after every step. */
module OrderBooks {
  import opened Models
  import opened SortedKeys
  import opened BookSpec
  import opened MatchLaws
  import opened BookLaws
  import opened Levels
  import opened RBShape
  import opened RBLists
  import opened RBTrees

  datatype OrderEntry = OrderEntry(Order: Order, PriceLevel: PriceLevel, Element: Element)

  /** What a side may only lose: the entries of its tree, those of the other tree, and all empty levels. */
  datatype Outline = Outline(own: seq<Entry>, other: seq<Entry>, empty: set<PriceLevel>)

  class OrderBook {
    const Symbol: string
    const Bids: RBTree
    const Asks: RBTree
    var orders: map<nat, OrderEntry>

    ghost var book: Book               // what the book is, as a value
    ghost var levels: set<PriceLevel>  // every level object that is or was in a tree
    ghost var members: set<Order>      // every order object that is or was in the book

    function Tree(s: Side): RBTree { if s == Buy then Bids else Asks }

    ghost function Contents(s: Side): seq<Entry>
      reads Tree(s)
    {
      Tree(s).Contents()
    }

    /** A level in a tree: keyed by its price, showing v, every order indexed under its ID with this level and its
        element. */
    ghost predicate Shows(en: Entry, v: Level)
      reads this, levels, members
    {
      var l := en.level;
      && l in levels && en.key == l.Price
      && (forall e <- l.Orders :: e.order in members && e.order.ID in orders &&
            orders[e.order.ID] == OrderEntry(e.order, l, e))
      && (forall i, j :: 0 <= i < j < |l.Orders| ==> l.Orders[i] != l.Orders[j])
      && l.View() == v
    }

    ghost predicate AllShown(es: seq<Entry>, ls: seq<Level>)
      reads this, levels, members
    {
      |es| == |ls| && forall i :: 0 <= i < |es| ==> Shows(es[i], ls[i])
    }

    lemma ShownParts(es: seq<Entry>, ls: seq<Level>, k: nat)
      requires AllShown(es, ls) && k <= |es|
      ensures AllShown(es[..k], ls[..k]) && AllShown(es[k..], ls[k..])
    {
      hide Shows;
    }

    lemma ShownJoined(a: seq<Entry>, c: seq<Level>, b: seq<Entry>, d: seq<Level>)
      requires AllShown(a, c) && AllShown(b, d)
      ensures AllShown(a + b, c + d)
    {
      hide Shows;
    }

    /** An indexed order either rests at its level, which is in its tree, or it is completely filled and out of its
        level, which is in the tree or empty. */
    ghost predicate Indexed(id: nat, x: OrderEntry)
      reads this, Bids, Asks, levels, members
    {
      && x.Order in members && x.PriceLevel in levels && x.Element.order == x.Order
      && x.Order.ID == id && x.Order.Price == x.PriceLevel.Price
      && if x.Element in x.PriceLevel.Orders then Entry(x.PriceLevel.Price, x.PriceLevel) in Contents(x.Order.Side)
         else Spent(x.Order.View()) &&
              (x.PriceLevel.Orders == [] || Entry(x.PriceLevel.Price, x.PriceLevel) in Contents(x.Order.Side))
    }

    ghost predicate IsResting(id: nat)
      reads this, levels
    {
      id in orders && orders[id].PriceLevel in levels && orders[id].Element in orders[id].PriceLevel.Orders
    }

    /** The filled orders that the index still knows, and whether the level where they were has become empty. */
    ghost function Spots(): map<nat, Spot>
      reads this, levels
    {
      map id | id in orders && !IsResting(id) :: SpotOf(id)
    }

    ghost function SpotOf(id: nat): Spot
      requires id in orders
      reads this, levels
    {
      var x := orders[id];
      Spot(x.Order.Side, x.Order.Price, if x.PriceLevel in levels && x.PriceLevel.Orders != [] then Standing else Gone)
    }

    /** Trees, lists and index agree with each other and with the value; a level may be empty for the moment. */
    ghost predicate Linked()
      reads this, Bids, Asks, levels, members
    {
      && Bids != Asks && Bids.desc && !Asks.desc && Bids.Valid() && Asks.Valid()
      && (forall x <- Contents(Buy), y <- Contents(Sell) :: x.level != y.level)
      && (forall s: Side :: AllShown(Contents(s), book.Of(s)))
      && (forall id <- orders :: Indexed(id, orders[id]))
    }

    ghost predicate Valid()
      reads this, Bids, Asks, levels, members
    {
      BookOk(book) && Linked()
    }

    constructor (symbol: string)
      ensures Valid() && book == Book([], []) && orders == map[] && Symbol == symbol
      ensures levels == {} && members == {} && fresh(Bids) && fresh(Asks)
    {
      Symbol := symbol;
      Bids := new RBTree(true);
      Asks := new RBTree(false);
      orders, book, levels, members := map[], Book([], []), {}, {};
    }

    lemma SameKeys(s: Side)
      requires Linked()
      ensures Keys(Contents(s)) == Prices(book.Of(s)) && Tree(s).desc == Desc(s)
    {
      forall i | 0 <= i < |Contents(s)|
        ensures Keys(Contents(s))[i] == Prices(book.Of(s))[i]
      {
        assert Shows(Contents(s)[i], book.Of(s)[i]);
      }
    }

    lemma SamePlace(s: Side, price: real)
      requires Linked()
      ensures var es, ls := Contents(s), book.Of(s);
        && |es| == |ls| && Tree(s).desc == Desc(s)
        && Rank(Desc(s), Keys(es), price) == PlaceOf(s, ls, price) <= |ls|
        && (Found(Desc(s), es, price) <==> HasPrice(s, ls, price))
    {
      SameKeys(s);
    }

    /** Levels that nobody touched are still shown. */
    twostate lemma StillShown(es: seq<Entry>, new ls: seq<Level>)
      requires old(AllShown(es, ls)) && old(levels) <= levels && old(members) <= members
      requires (forall l <- old(levels) :: unchanged(l)) && (forall o <- old(members) :: unchanged(o))
      requires forall id <- old(orders) :: id in orders && orders[id] == old(orders[id])
      ensures AllShown(es, ls)
    {
      forall i | 0 <= i < |es|
        ensures Shows(es[i], ls[i])
      {
        assert es[i] in es && old(Shows(es[i], ls[i]));
      }
    }

    /** A new, empty level has been put into one tree: everything still fits together. */
    twostate lemma OpenedIsLinked(new s: Side, new k: nat, new en: Entry)
      requires old(Linked()) && Bids.Valid() && Asks.Valid() && k <= |old(Contents(s))|
      requires Contents(s) == old(Contents(s))[..k] + [en] + old(Contents(s))[k..]
      requires Contents(s.Opposite()) == old(Contents(s.Opposite()))
      requires levels == old(levels) + {en.level} && members == old(members) && orders == old(orders)
      requires (forall l <- old(levels) :: unchanged(l)) && (forall o <- old(members) :: unchanged(o))
      requires en.level !in old(levels) && en.key == en.level.Price && en.level.Orders == [] && en.level.Total == 0.0
      requires k <= |old(book).Of(s)|
      requires book == old(book).With(s, old(book).Of(s)[..k] + [Level(en.key, [], 0.0)] + old(book).Of(s)[k..])
      ensures Linked()
    {
      hide *;
      var es, ls := old(Contents(s)), old(book).Of(s);
      WasShown(s, k);
      WasShown(s.Opposite(), 0);
      StillShown(es, ls);
      StillShown(old(Contents(s.Opposite())), old(book).Of(s.Opposite()));
      ShownParts(es, ls, k);
      EmptyShown(en);
      ShownJoined(es[..k], ls[..k], [en], [Level(en.key, [], 0.0)]);
      ShownJoined(es[..k] + [en], ls[..k] + [Level(en.key, [], 0.0)], es[k..], ls[k..]);
      WithOf(old(book), s, ls[..k] + [Level(en.key, [], 0.0)] + ls[k..]);
      OldTrees(s);
      WithOneMore(es, k, en);
      IndexStays(s);
      FitsOn(s);
    }

    twostate lemma WasShown(new s: Side, new k: nat)
      requires old(Linked())
      ensures old(AllShown(Contents(s), book.Of(s)) && |Contents(s)| == |book.Of(s)|)
    {
    }

    lemma EmptyShown(en: Entry)
      requires en.level in levels && en.key == en.level.Price && en.level.Orders == []
      ensures AllShown([en], [Level(en.key, [], en.level.Total)])
    {
    }

    twostate lemma OldTrees(new s: Side)
      requires old(Linked())
      ensures Bids != Asks && Bids.desc && !Asks.desc
      ensures old(forall x <- Contents(s), y <- Contents(s.Opposite()) :: x.level != y.level)
      ensures old(forall x <- Contents(s) :: x.level in levels)
      ensures old(forall x <- Contents(s.Opposite()) :: x.level in levels)
    {
      InTrees(s);
      InTrees(s.Opposite());
      hide AllShown, RBTree.Valid, Indexed;
    }

    /** Whichever side it is that has changed. */
    lemma FitsOn(s: Side)
      requires Bids != Asks && Bids.desc && !Asks.desc && Bids.Valid() && Asks.Valid()
      requires forall x <- Contents(s), y <- Contents(s.Opposite()) :: x.level != y.level
      requires AllShown(Contents(s), book.Of(s)) && AllShown(Contents(s.Opposite()), book.Of(s.Opposite()))
      requires forall id <- orders :: Indexed(id, orders[id])
      ensures Linked()
    {
      hide AllShown, Shows, Indexed, RBTree.Valid;
    }

    twostate lemma InTrees(new s: Side)
      requires old(Linked())
      ensures forall x <- old(Contents(s)) :: x.level in old(levels)
    {
      forall x | x in old(Contents(s))
        ensures x.level in old(levels)
      {
        var i :| 0 <= i < |old(Contents(s))| && old(Contents(s))[i] == x;
        assert old(Shows(Contents(s)[i], book.Of(s)[i]));
      }
    }

    // ------------------------------------------------------------------ one level is touched, the others are not

    /** Only this level object, and only orders in its queue, have changed. */
    twostate predicate OnlyAt(new level: PriceLevel, new touched: set<Order>)
      reads this, levels, members
    {
      && level in old(levels) && old(levels) <= levels && old(members) <= members
      && (forall l <- old(levels) :: l != level ==> unchanged(l))
      && (forall o <- old(members) :: o !in touched ==> unchanged(o))
      && (forall o <- touched :: exists e <- old(level.Orders) :: e.order == o)
      && (forall id <- old(orders) :: old(orders[id]).PriceLevel != level && old(IsResting(id)) ==>
            id in orders && orders[id] == old(orders[id]))
    }

    twostate lemma ShownElsewhere(new level: PriceLevel, new touched: set<Order>, en: Entry, new v: Level)
      requires OnlyAt(level, touched) && old(Shows(en, v)) && en.level != level
      requires forall e <- old(level.Orders) :: e.order.ID in old(orders) && old(orders[e.order.ID]).PriceLevel == level
      ensures Shows(en, v)
    {
      forall e | e in old(en.level.Orders)
        ensures e.order !in touched
      {
        assert forall f <- old(level.Orders) :: f.order != e.order;
      }
    }

    twostate lemma IndexedElsewhere(new level: PriceLevel, new touched: set<Order>, new id: nat)
      requires OnlyAt(level, touched) && id in old(orders) && old(orders[id]).PriceLevel != level
      requires id in orders && orders[id] == old(orders[id])
      requires old(Indexed(id, orders[id]))
      requires forall e <- old(level.Orders) :: e.order.ID in old(orders) && old(orders[e.order.ID]).PriceLevel == level
      requires forall t: Side, y <- old(Contents(t)) :: y.level != level ==> y in Contents(t)
      ensures Indexed(id, orders[id])
    {
      var x := orders[id];
      assert forall f <- old(level.Orders) :: f.order != x.Order;
    }

    twostate lemma TouchedShown(new s: Side, new k: nat, new touched: set<Order>, new v: Level, new t: Side)
      requires old(Linked()) && k < |Contents(s)| && unchanged(Bids) && unchanged(Asks)
      requires OnlyAt(Contents(s)[k].level, touched)
      requires Shows(Contents(s)[k], v) && book == old(book).With(s, old(book).Of(s)[k := v])
      ensures AllShown(Contents(t), book.Of(t))
    {
      var level := Contents(s)[k].level;
      assert old(Shows(Contents(s)[k], book.Of(s)[k]));
      forall i | 0 <= i < |Contents(t)|
        ensures Shows(Contents(t)[i], book.Of(t)[i])
      {
        if t != s || i != k {
          OldLevelsDiffer(s, k, t, i);
          ShownElsewhere(level, touched, Contents(t)[i], old(book).Of(t)[i]);
        }
      }
    }

    twostate lemma TouchedIndexed(new s: Side, new k: nat, new touched: set<Order>, new id: nat)
      requires old(Linked()) && k < |Contents(s)| && unchanged(Bids) && unchanged(Asks)
      requires OnlyAt(Contents(s)[k].level, touched)
      requires id in old(orders) && old(orders[id]).PriceLevel != Contents(s)[k].level
      requires id in orders && orders[id] == old(orders[id])
      ensures Indexed(id, orders[id])
    {
      assert old(Shows(Contents(s)[k], book.Of(s)[k])) && old(Indexed(id, orders[id]));
      hide Indexed, AllShown, RBTree.Valid;
      IndexedElsewhere(Contents(s)[k].level, touched, id);
    }

    /** The level at one place has changed, and is shown and indexed again: everything fits together again. */
    twostate lemma TouchedIsLinked(new s: Side, new k: nat, new touched: set<Order>, new v: Level)
      requires old(Linked()) && k < |Contents(s)| && unchanged(Bids) && unchanged(Asks)
      requires OnlyAt(Contents(s)[k].level, touched)
      requires Shows(Contents(s)[k], v) && book == old(book).With(s, old(book).Of(s)[k := v])
      requires forall id <- orders ::
        id !in old(orders) || orders[id] != old(orders[id]) || old(orders[id]).PriceLevel == Contents(s)[k].level ==>
          Indexed(id, orders[id])
      ensures Linked()
    {
      hide *;
      TreesUntouched();
      TouchedShown(s, k, touched, v, Buy);
      TouchedShown(s, k, touched, v, Sell);
      forall id | id in orders
        ensures Indexed(id, orders[id])
      {
        if id in old(orders) && orders[id] == old(orders[id]) && old(orders[id]).PriceLevel != Contents(s)[k].level {
          TouchedIndexed(s, k, touched, id);
        }
      }
      FitsTogether();
    }

    lemma FitsTogether()
      requires Bids != Asks && Bids.desc && !Asks.desc && Bids.Valid() && Asks.Valid()
      requires forall x <- Contents(Buy), y <- Contents(Sell) :: x.level != y.level
      requires AllShown(Contents(Buy), book.Of(Buy)) && AllShown(Contents(Sell), book.Of(Sell))
      requires forall id <- orders :: Indexed(id, orders[id])
      ensures Linked()
    {
    }

    twostate lemma TreesUntouched()
      requires old(Linked()) && unchanged(Bids) && unchanged(Asks)
      ensures Bids != Asks && Bids.desc && !Asks.desc && Bids.Valid() && Asks.Valid()
      ensures Contents(Buy) == old(Contents(Buy)) && Contents(Sell) == old(Contents(Sell))
      ensures forall x <- Contents(Buy), y <- Contents(Sell) :: x.level != y.level
    {
    }

    twostate lemma OldLevelsDiffer(new s: Side, new k: nat, new t: Side, new i: nat)
      requires old(Linked()) && k < |old(Contents(s))| && i < |old(Contents(t))| && (s != t || k != i)
      ensures old(Contents(s)[k].level) != old(Contents(t)[i].level)
      ensures old(Shows(Contents(t)[i], book.Of(t)[i]))
    {
      if s == t {
        assert old(Shows(Contents(s)[k], book.Of(s)[k])) && old(Shows(Contents(s)[i], book.Of(s)[i]));
        var ks := old(Keys(Contents(s)));
        assert if k < i then Before(Tree(s).desc, ks[k], ks[i]) else Before(Tree(s).desc, ks[i], ks[k]);
      } else {
        assert old(Contents(s)[k]) in old(Contents(s)) && old(Contents(t)[i]) in old(Contents(t));
      }
    }

    /** The index stays right while levels are only put into trees, or taken out when they are empty. */
    twostate lemma IndexStays(new s: Side)
      requires old(Linked()) && old(levels) <= levels && members == old(members) && orders == old(orders)
      requires (forall l <- old(levels) :: unchanged(l)) && (forall o <- old(members) :: unchanged(o))
      requires forall y <- old(Contents(s)) :: y in Contents(s) || y.level.Orders == []
      requires forall y <- old(Contents(s.Opposite())) :: y in Contents(s.Opposite()) || y.level.Orders == []
      ensures forall id <- orders :: Indexed(id, orders[id])
    {
      hide AllShown, Shows, Spent, RBTree.Valid;
      forall id | id in orders
        ensures Indexed(id, orders[id])
      {
        assert old(Indexed(id, orders[id]));
        EitherSide(s, orders[id].Order.Side);
      }
    }

    /** An emptied level has been taken out of its tree: everything still fits together. */
    twostate lemma DroppedIsLinked(new s: Side, new k: nat)
      requires old(Linked()) && Bids.Valid() && Asks.Valid() && k < |old(Contents(s))|
      requires Contents(s) == old(Contents(s))[..k] + old(Contents(s))[k + 1..]
      requires Contents(s.Opposite()) == old(Contents(s.Opposite()))
      requires levels == old(levels) && members == old(members) && orders == old(orders)
      requires (forall l <- levels :: unchanged(l)) && (forall o <- members :: unchanged(o))
      requires k < |old(book).Of(s)| && old(book).Of(s)[k].queue == []
      requires book == old(book).With(s, old(book).Of(s)[..k] + old(book).Of(s)[k + 1..])
      ensures Linked()
    {
      hide *;
      var es, ls := old(Contents(s)), old(book).Of(s);
      WasShown(s, k);
      WasShown(s.Opposite(), 0);
      StillShown(es, ls);
      StillShown(old(Contents(s.Opposite())), old(book).Of(s.Opposite()));
      ShownIsEmpty(es, ls, k);
      ShownParts(es, ls, k);
      ShownParts(es, ls, k + 1);
      ShownJoined(es[..k], ls[..k], es[k + 1..], ls[k + 1..]);
      WithOf(old(book), s, ls[..k] + ls[k + 1..]);
      OldTrees(s);
      WithoutOne(es, k);
      IndexStays(s);
      FitsOn(s);
    }

    lemma ShownIsEmpty(es: seq<Entry>, ls: seq<Level>, k: nat)
      requires AllShown(es, ls) && k < |es| && ls[k].queue == []
      ensures es[k].level.Orders == []
    {
      assert Shows(es[k], ls[k]);
    }

    lemma TwoTrees(s: Side)
      requires Linked()
      ensures Tree(s) != Tree(s.Opposite()) && Tree(s).Valid() && Tree(s.Opposite()).Valid() && Tree(s).desc == Desc(s)
      ensures if Tree(s) == Bids then Tree(s.Opposite()) == Asks else Tree(s) == Asks && Tree(s.Opposite()) == Bids
      ensures Contents(s) == Tree(s).Contents()
    {
    }

    lemma BothValid(s: Side)
      requires Tree(s).Valid() && Tree(s.Opposite()).Valid()
      ensures Bids.Valid() && Asks.Valid() && Contents(s) == Tree(s).Contents()
    {
    }

    method OpenLevel(s: Side, price: real) returns (level: PriceLevel)
      requires Linked() && !HasPrice(s, book.Of(s), price)
      modifies this`book, this`levels, Tree(s)
      ensures Linked() && book == old(book).With(s, Opened(s, old(book).Of(s), price))
      ensures var k := PlaceOf(s, old(book).Of(s), price);
        k < |Contents(s)| && Contents(s)[k] == Entry(price, level)
      ensures levels == old(levels) + {level} && fresh(level)
    {
      hide *;
      SamePlace(s, price);
      TwoTrees(s);
      var tree := Tree(s);
      ghost var k := PlaceOf(s, book.Of(s), price);
      level := new PriceLevel(price);
      PutNew(tree.desc, tree.Contents(), price, level);
      OpenedNew(s, book.Of(s), price);
      ghost var steps := tree.Insert(price, level);
      levels := levels + {level};
      book := book.With(s, Opened(s, book.Of(s), price));
      BothValid(s);
      OpenedIsLinked(s, k, Entry(price, level));
    }

    /** The level of a price, created empty if it is missing. */
    method LevelFor(s: Side, price: real) returns (level: PriceLevel)
      requires Valid()
      modifies this`book, this`levels, Tree(s)
      ensures Linked() && book == old(book).With(s, Opened(s, old(book).Of(s), price))
      ensures var k := PlaceOf(s, old(book).Of(s), price);
        k < |Contents(s)| && Contents(s)[k] == Entry(price, level)
      ensures fresh(levels - old(levels)) && old(levels) <= levels && level in levels
      ensures level.Orders == [] ==> fresh(level)
    {
      hide *;
      BookIsOk();
      SamePlace(s, price);
      TwoTrees(s);
      AtPlace(s, price);
      var found := Tree(s).Get(price);
      if found == null {
        level := OpenLevel(s, price);
      } else {
        level := found;
        LevelIsUsed(s, PlaceOf(s, book.Of(s), price));
      }
    }

    /** What a look-up at a price finds. */
    lemma AtPlace(s: Side, price: real)
      requires Linked()
      ensures var es, k, found := Contents(s), PlaceOf(s, book.Of(s), price), LevelAt(Desc(s), Contents(s), price);
        && (found == null <==> !HasPrice(s, book.Of(s), price))
        && (found != null ==> k < |es| && es[k] == Entry(price, found))
        && (found != null ==> book == book.With(s, Opened(s, book.Of(s), price)))
    {
      SamePlace(s, price);
    }

    lemma PriceOfLevel(s: Side, k: nat)
      requires Linked() && k < |Contents(s)|
      ensures k < |book.Of(s)| && Contents(s)[k].key == Contents(s)[k].level.Price
    {
      assert Shows(Contents(s)[k], book.Of(s)[k]);
    }

    lemma LevelIsUsed(s: Side, k: nat)
      requires Valid() && k < |Contents(s)|
      ensures k < |book.Of(s)| && Contents(s)[k].level.Orders != [] && Contents(s)[k].level in levels
    {
      assert Shows(Contents(s)[k], book.Of(s)[k]);
      assert book.Of(s)[k] in book.Of(s);
    }

    /** An order has been put at the end of the queue at one place. */
    twostate predicate Pushed(new s: Side, new k: nat, order: Order, new e: Element)
      reads this, Tree(s), levels, members
    {
      && k < |Contents(s)| && Contents(s)[k].level in old(levels)
      && levels == old(levels) && members == old(members) + {order}
      && var l := Contents(s)[k].level;
         && l.Price == order.Price && order.Side == s && fresh(e) && e.order == order
         && l.Orders == old(l.Orders) + [e] && l.Total == old(l.Total) + order.RemainAmount
         && orders == old(orders)[order.ID := OrderEntry(order, l, e)]
         && (forall x <- old(levels) :: x != l ==> unchanged(x))
         && (forall o <- members :: unchanged(o))
         && (old(l.Orders) != [] || forall id <- old(orders) :: old(orders[id]).PriceLevel != l)
    }

    twostate lemma PushedShows(new s: Side, new k: nat, order: Order, new e: Element, new v: Level)
      requires Pushed(s, k, order, e) && unchanged(Tree(s)) && old(Shows(Contents(s)[k], v))
      requires !old(IsResting(order.ID))
      ensures Shows(Contents(s)[k], Append(v, order.View()))
    {
      hide Entries, Queue;
      var l := Contents(s)[k].level;
      QueuePushed(l, order, e);
      forall x | x in l.Orders
        ensures x.order in members && x.order.ID in orders && orders[x.order.ID] == OrderEntry(x.order, l, x)
      {
        assert x in old(l.Orders) || x == e;
      }
    }

    twostate lemma PushedOnly(new s: Side, new k: nat, order: Order, new e: Element)
      requires Pushed(s, k, order, e) && !old(IsResting(order.ID))
      ensures OnlyAt(Contents(s)[k].level, {})
    {
    }

    twostate lemma QueuePushed(l: PriceLevel, new order: Order, new e: Element)
      requires l.Orders == old(l.Orders) + [e] && e.order == order && forall x <- old(l.Orders) :: unchanged(x.order)
      ensures Queue(l.Orders) == old(Queue(l.Orders)) + [order.View()]
    {
      hide Queue;
      forall i | 0 <= i < |old(l.Orders)|
        ensures Queue(l.Orders)[i] == old(Queue(l.Orders))[i]
      {
        assert old(l.Orders)[i] in old(l.Orders);
      }
    }

    twostate lemma PushedIndexed(new s: Side, new k: nat, order: Order, new e: Element, new id: nat)
      requires Pushed(s, k, order, e) && unchanged(Bids) && unchanged(Asks)
      requires id == order.ID ||
        (id in old(orders) && old(Indexed(id, orders[id])) && old(orders[id]).PriceLevel == Contents(s)[k].level)
      requires Contents(s)[k].key == Contents(s)[k].level.Price
      requires forall x <- old(orders) :: old(orders[x]).Element != e
      ensures id in orders && Indexed(id, orders[id])
    {
      assert Contents(s)[k] in Contents(s);
      assert e in Contents(s)[k].level.Orders;
    }

    twostate lemma PushedIsLinked(new s: Side, new k: nat, order: Order, new e: Element)
      requires old(Linked()) && unchanged(Bids) && unchanged(Asks) && Pushed(s, k, order, e)
      requires !old(IsResting(order.ID))
      requires book == old(book).With(s, old(book).Of(s)[k := Append(old(book).Of(s)[k], order.View())])
      ensures Linked()
    {
      PlaceShown(s, k);
      var v := Append(old(book).Of(s)[k], order.View());
      PushedShows(s, k, order, e, old(book).Of(s)[k]);
      PushedOnly(s, k, order, e);
      hide *;
      PushedElsewhere(s, k, order, e);
      forall id | id in orders && (id == order.ID || old(orders[id]).PriceLevel == Contents(s)[k].level)
        ensures Indexed(id, orders[id])
      {
        NewIdIs(s, k, order, e, id);
        PushedIndexed(s, k, order, e, id);
      }
      TouchedIsLinked(s, k, {}, v);
    }

    twostate lemma PushedElsewhere(new s: Side, new k: nat, order: Order, new e: Element)
      requires Pushed(s, k, order, e)
      ensures forall id <- orders :: id == order.ID || (id in old(orders) && orders[id] == old(orders[id]))
    {
    }

    twostate lemma NewIdIs(new s: Side, new k: nat, order: Order, new e: Element, new id: nat)
      requires old(Linked()) && Pushed(s, k, order, e) && id in orders
      ensures id == order.ID || (id in old(orders) && old(Indexed(id, orders[id])))
      ensures forall x <- old(orders) :: old(orders[x]).Element != e
    {
      hide AllShown, Shows, Indexed, RBTree.Valid;
    }

    twostate lemma PlaceShown(new s: Side, new k: nat)
      requires old(Linked()) && unchanged(Tree(s)) && k < |Contents(s)|
      ensures k < |old(book).Of(s)| && old(Shows(Contents(s)[k], book.Of(s)[k]))
      ensures Contents(s)[k].key == Contents(s)[k].level.Price
      ensures Contents(s)[k].level in old(levels)
    {
    }

    /** Under the ID of an order that rests, an order takes that one's place in the index; the index no longer agrees
        with the queue in which the other one stays. */
    twostate lemma PushedTwice(new s: Side, new k: nat, order: Order, new e: Element)
      requires old(Linked()) && unchanged(Bids) && unchanged(Asks) && Pushed(s, k, order, e) && old(IsResting(order.ID))
      ensures !Linked()
    {
      hide Entries, Queue, RBTree.Valid, Spent;
      var x := old(orders[order.ID]);
      assert old(Indexed(order.ID, x)) && x.Element != e;
      assert x.Element in x.PriceLevel.Orders;
      var t := x.Order.Side;
      SameContents(t);
      var j :| 0 <= j < |Contents(t)| && Contents(t)[j] == Entry(x.PriceLevel.Price, x.PriceLevel);
      if Linked() { ShownAt(t, j); }
    }

    /** The order goes to the end of the queue at one place, and into the index. */
    method Rest(ghost s: Side, ghost k: nat, level: PriceLevel, order: Order)
      requires Linked() && k < |Contents(s)| && k < |book.Of(s)| && Contents(s)[k].level == level && level in levels
      requires level.Price == order.Price && order.Side == s
      requires level.Orders != [] || forall id <- orders :: orders[id].PriceLevel != level
      modifies this`orders, this`members, this`book, level
      ensures book == old(book.With(s, book.Of(s)[k := Append(book.Of(s)[k], order.View())]))
      ensures members == old(members) + {order} && levels == old(levels) && old(level.Orders) < level.Orders
      ensures IsResting(order.ID) && orders[order.ID].Order == order
      ensures orders.Keys == old(orders.Keys) + {order.ID}
      ensures forall id <- old(orders) :: id in orders && (id != order.ID ==> orders[id] == old(orders[id]))
      ensures forall id <- old(orders) :: id != order.ID ==> (IsResting(id) <==> old(IsResting(id)))
      ensures Linked() <==> !old(IsResting(order.ID))
    {
      hide *;
      var element := level.PushBack(order);
      level.Total := level.Total + order.RemainAmount;
      orders := orders[order.ID := OrderEntry(order, level, element)];
      members := members + {order};
      book := book.With(s, book.Of(s)[k := Append(book.Of(s)[k], order.View())]);
      SameContents(s);
      IsPushed(s, k, order, element);
      if old(IsResting(order.ID)) {
        PushedTwice(s, k, order, element);
      } else {
        PushedIsLinked(s, k, order, element);
      }
      RestsNow(order.ID, level, element);
      RestingStays(s, k, order, element);
    }

    twostate lemma RestingStays(new s: Side, new k: nat, order: Order, new e: Element)
      requires old(Linked()) && Pushed(s, k, order, e)
      ensures forall id <- old(orders) :: id != order.ID ==> (IsResting(id) <==> old(IsResting(id)))
    {
      hide Entries, AllShown, Shows, Spent, RBTree.Valid;
      forall id | id in old(orders) && id != order.ID
        ensures IsResting(id) <==> old(IsResting(id))
      {
        assert old(Indexed(id, orders[id]));
      }
    }

    twostate lemma SameContents(new s: Side)
      requires unchanged(Bids) && unchanged(Asks)
      ensures Contents(s) == old(Contents(s))
    {
    }

    lemma RestsNow(id: nat, level: PriceLevel, e: Element)
      requires id in orders && orders[id].PriceLevel == level && level in levels && orders[id].Element == e
      requires |level.Orders| > 0 && level.Orders[|level.Orders| - 1] == e
      ensures IsResting(id)
    {
    }

    twostate lemma IsPushed(new s: Side, new k: nat, order: Order, new e: Element)
      requires unchanged(Bids) && unchanged(Asks) && k < |Contents(s)| && Contents(s)[k].level in old(levels)
      requires levels == old(levels) && members == old(members) + {order}
      requires var l := Contents(s)[k].level;
         && l.Price == order.Price && order.Side == s && fresh(e) && e.order == order
         && l.Orders == old(l.Orders) + [e] && l.Total == old(l.Total) + order.RemainAmount
         && orders == old(orders)[order.ID := OrderEntry(order, l, e)]
         && (old(l.Orders) != [] || forall id <- old(orders) :: old(orders[id]).PriceLevel != l)
      requires forall x <- old(levels) :: x != Contents(s)[k].level ==> unchanged(x)
      requires unchanged(order) && forall o <- old(members) :: unchanged(o)
      ensures Pushed(s, k, order, e)
    {
    }

    /** Puts an order behind all others of its price. Under the ID of an order that rests already it would leave that
        one in its queue, but out of the index; an order that has been filled is only forgotten. */
    method AddOrder(order: Order)
      requires Valid() && BookSpec.Rests(order.View(), order.Side, order.Price)
      modifies this, Bids, Asks, levels
      ensures Valid() <==> !old(IsResting(order.ID))
      ensures book == old(Add(book, order.View())) && unchanged(order)
      ensures IsResting(order.ID) && orders[order.ID].Order == order
      ensures orders.Keys == old(orders.Keys) + {order.ID}
      ensures forall id <- old(orders) :: id != order.ID ==> orders[id] == old(orders[id])
      ensures members == old(members) + {order} && fresh(levels - old(levels)) && old(levels) <= levels
      ensures forall id <- old(orders) :: id != order.ID ==> (IsResting(id) <==> old(IsResting(id)))
      ensures Spots() == old(Spots()) - {order.ID}
    {
      hide *;
      ghost var s, o := order.Side, order.View();
      BookIsOk();
      AddKeepsOk(book, s, o);
      AddIsAppend(book, s, o);
      OneOfTheTrees(s);
      ghost var k := PlaceOf(s, book.Of(s), order.Price);
      var level := LevelFor(order.Side, order.Price);
      RestingUnmoved();
      PriceOfLevel(s, k);
      SameIfAbsent(order.ID);
      Rest(s, k, level, order);
      ValidIff();
      AddedSpots(order, level);
    }

    twostate lemma SameIfAbsent(new id: nat)
      requires orders == old(orders)
      ensures id !in old(orders) ==> !IsResting(id) && !old(IsResting(id))
    {
    }

    twostate lemma AddedSpots(new order: Order, new level: PriceLevel)
      requires old(Linked()) && old(levels) <= levels && level in levels && level.Orders != []
      requires orders.Keys == old(orders.Keys) + {order.ID} && IsResting(order.ID)
      requires forall id <- old(orders) :: id != order.ID ==> orders[id] == old(orders[id])
      requires forall id <- old(orders) :: id != order.ID ==> (IsResting(id) <==> old(IsResting(id)))
      requires forall l <- old(levels) :: l == level || unchanged(l)
      requires level in old(levels) ==> old(level.Orders) != []
      ensures Spots() == old(Spots()) - {order.ID}
    {
      hide *;
      forall id | id in old(orders) && id != order.ID
        ensures SpotOf(id) == old(SpotOf(id))
      {
        LevelOfEntry(id);
        SameSpot(level, id);
      }
      SpotsAre();
      RestingIsIndexed(order.ID);
    }

    twostate lemma LevelOfEntry(new id: nat)
      requires old(Linked()) && id in old(orders)
      ensures old(orders[id].PriceLevel in levels)
    {
      hide Entries, AllShown, Shows, Spent, RBTree.Valid;
      assert old(Indexed(id, orders[id]));
    }

    twostate lemma SameSpot(new level: PriceLevel, new id: nat)
      requires id in orders && id in old(orders) && orders[id] == old(orders[id])
      requires old(orders[id].PriceLevel in levels) && old(levels) <= levels && level.Orders != []
      requires forall l <- old(levels) :: l == level || unchanged(l)
      requires level in old(levels) ==> old(level.Orders) != []
      ensures SpotOf(id) == old(SpotOf(id))
    {
    }

    twostate lemma SpotsAre()
      ensures Spots() == map id | id in orders && !IsResting(id) :: SpotOf(id)
      ensures old(Spots()) == map id | id in old(orders) && !old(IsResting(id)) :: old(SpotOf(id))
    {
    }

    twostate lemma RestingUnmoved()
      requires old(Linked()) && orders == old(orders) && old(levels) <= levels
      requires forall l <- old(levels) :: unchanged(l)
      ensures forall id <- old(orders) :: IsResting(id) <==> old(IsResting(id))
    {
      hide Entries, AllShown, Shows, Spent, RBTree.Valid;
      forall id | id in old(orders)
        ensures IsResting(id) <==> old(IsResting(id))
      {
        assert old(Indexed(id, orders[id]));
      }
    }

    lemma BookIsOk()
      requires Valid()
      ensures BookOk(book) && Linked()
    {
    }

    lemma IsValid()
      requires BookOk(book) && Linked()
      ensures Valid()
    {
    }

    lemma OneOfTheTrees(s: Side)
      ensures Tree(s) == Bids || Tree(s) == Asks
    {
    }

    // ------------------------------------------------------------------ what becomes of filled orders in the index

    ghost function OutlineOf(s: Side): Outline
      reads this, Bids, Asks, levels
    {
      Outline(Contents(s), Contents(s.Opposite()), set l | l in levels && l.Orders == [])
    }

    /** Only levels of one side have left their tree, and nothing has come to an empty level. */
    ghost predicate Within(s: Side, was: Outline)
      reads this, Bids, Asks, levels
    {
      && (forall x <- Contents(s) :: x in was.own) && Contents(s.Opposite()) == was.other
      && forall l <- levels :: l in was.empty ==> l.Orders == []
    }

    lemma StartsWithin(s: Side)
      ensures Within(s, OutlineOf(s))
    {
    }

    twostate lemma IsWithin(new s: Side, new was: Outline)
      requires levels == old(levels) && old(allocated(was) && Within(s, was))
      requires (forall x <- Contents(s) :: x in old(Contents(s)))
      requires Contents(s.Opposite()) == old(Contents(s.Opposite()))
      requires forall l <- levels :: old(l.Orders) == [] ==> l.Orders == []
      ensures Within(s, was)
    {
      hide Entries;
    }

    /** The level where an indexed order is or was has orders exactly if it is in its tree. */
    ghost predicate Housed(id: nat)
      requires id in orders
      reads this, Bids, Asks, levels
    {
      var x := orders[id];
      && x.PriceLevel in levels
      && (x.PriceLevel.Orders != [] <==> Entry(x.Order.Price, x.PriceLevel) in Contents(x.Order.Side))
    }

    ghost predicate AllHoused()
      reads this, Bids, Asks, levels
    {
      (forall s: Side :: OnePerKey(Contents(s))) && forall id <- orders :: Housed(id)
    }

    lemma IsHoused(id: nat)
      requires Valid() && id in orders
      ensures Housed(id)
    {
      hide Entries, AllShown, Shows, Spent, RBTree.Valid;
      var x := orders[id];
      assert Indexed(id, x);
      var s := x.Order.Side;
      if Entry(x.Order.Price, x.PriceLevel) in Contents(s) {
        var k :| 0 <= k < |Contents(s)| && Contents(s)[k] == Entry(x.Order.Price, x.PriceLevel);
        LevelIsUsed(s, k);
      }
    }

    lemma ValidIsHoused()
      requires Valid()
      ensures AllHoused()
    {
      hide *;
      BookIsOk();
      forall id | id in orders
        ensures Housed(id)
      {
        IsHoused(id);
      }
      forall s: Side
        ensures OnePerKey(Contents(s))
      {
        KeysSorted(s);
        SortedHasOnePerKey(Desc(s), Contents(s));
      }
      HousedIff();
    }

    lemma HousedIff()
      ensures AllHoused() <==> (forall s: Side :: OnePerKey(Contents(s))) && forall id <- orders :: Housed(id)
    {
    }

    /** The filled orders of a valid book are already as a sweep would leave them. */
    lemma SweptAlready(s: Side)
      requires Valid()
      ensures Swept(Spots(), s, book.Of(s)) == Spots()
    {
      hide *;
      BookIsOk();
      ValidIsHoused();
      SpotsNow();
      var spots, ls := Spots(), book.Of(s);
      SweptKeys(spots, s, ls);
      NothingMore(spots);
      forall id | id in spots
        ensures Swept(spots, s, ls)[id] == spots[id]
      {
        IsHousedAt(id);
        SpotIs(id);
        var x := orders[id];
        if x.PriceLevel.Orders != [] && x.Order.Side == s { PriceOfEntryIn(s, Entry(x.Order.Price, x.PriceLevel)); }
        NobodyIn(id);
        SweptAt(spots, [], s, ls, id);
      }
    }

    lemma SpotsNow()
      ensures Spots() == map id | id in orders && !IsResting(id) :: SpotOf(id)
    {
    }

    lemma EntryAtPrice(s: Side, price: real) returns (en: Entry)
      requires Linked() && HasPrice(s, book.Of(s), price)
      ensures en in Contents(s) && en.key == price
    {
      hide Entries, AllShown, Shows, Indexed, RBTree.Valid;
      SamePlace(s, price);
      SameKeys(s);
      var k := PlaceOf(s, book.Of(s), price);
      en := Contents(s)[k];
      assert Keys(Contents(s))[k] == price;
    }

    lemma PriceOfEntryIn(s: Side, en: Entry)
      requires Linked() && en in Contents(s)
      ensures HasPrice(s, book.Of(s), en.key)
    {
      hide Entries, AllShown, Shows, Indexed, RBTree.Valid;
      SameKeys(s);
      SamePlace(s, en.key);
      var k :| 0 <= k < |Contents(s)| && Contents(s)[k] == en;
      KeysSorted(s);
      RankIsUnique(Desc(s), Keys(Contents(s)), en.key, k);
    }

    lemma KeysSorted(s: Side)
      requires Linked()
      ensures Sorted(Desc(s), Keys(Contents(s)))
    {
      hide Entries, AllShown, Indexed;
    }

    /** The level of a filled order had orders before, and still has exactly if a level is still at its price. */
    twostate lemma StillStands(new s: Side, new id: nat)
      requires old(AllHoused()) && Valid() && AllHoused() && Within(s, old(OutlineOf(s))) && levels == old(levels)
      requires id in orders && id in old(orders) && orders[id] == old(orders[id])
      requires old(orders[id].PriceLevel.Orders) != []
      ensures var x := orders[id];
        x.PriceLevel.Orders != [] <==> (x.Order.Side == s ==> HasPrice(s, book.Of(s), x.Order.Price))
    {
      hide *;
      BookIsOk();
      WasHoused(id);
      IsHousedAt(id);
      WithinParts(s);
      var x := orders[id];
      var en := Entry(x.Order.Price, x.PriceLevel);
      EitherSide(s, x.Order.Side);
      if x.Order.Side == s {
        if en in Contents(s) { PriceOfEntryIn(s, en); }
        if HasPrice(s, book.Of(s), x.Order.Price) {
          var now := EntryAtPrice(s, x.Order.Price);
          SameEntry(old(Contents(s)), now, en);
        }
      }
    }

    twostate lemma WithinParts(new s: Side)
      requires Within(s, old(OutlineOf(s))) && old(AllHoused()) && levels == old(levels)
      ensures (forall x <- Contents(s) :: x in old(Contents(s)))
      ensures Contents(s.Opposite()) == old(Contents(s.Opposite()))
      ensures OnePerKey(old(Contents(s)))
      ensures forall l <- old(levels) :: old(l.Orders) == [] ==> l.Orders == []
    {
      hide Entries, Housed;
    }

    twostate lemma WasHoused(new id: nat)
      requires old(AllHoused()) && id in old(orders)
      ensures var x := old(orders[id]);
        && x.PriceLevel in old(levels)
        && (old(x.PriceLevel.Orders) != [] <==> Entry(x.Order.Price, x.PriceLevel) in old(Contents(x.Order.Side)))
    {
      assert old(Housed(id));
      hide Entries;
    }

    lemma IsHousedAt(id: nat)
      requires AllHoused() && id in orders
      ensures var x := orders[id];
        && x.PriceLevel in levels
        && (x.PriceLevel.Orders != [] <==> Entry(x.Order.Price, x.PriceLevel) in Contents(x.Order.Side))
    {
      assert Housed(id);
      hide Entries;
    }

    /** Orders that have left their queue, on this side: with these values, and at rest before. */
    twostate predicate Filling(new s: Side, new filled: seq<Ord>)
      reads this, levels
    {
      forall o <- filled ::
        && o.id in orders && !IsResting(o.id) && o.id in old(orders) && old(IsResting(o.id)) && o.side == s
        && orders[o.id].Order.Side == s && orders[o.id].Order.Price == o.price
    }

    twostate lemma SpotAfter(new s: Side, new left: seq<Level>, new filled: seq<Ord>, new id: nat)
      requires old(AllHoused()) && Valid() && AllHoused() && Within(s, old(OutlineOf(s))) && levels == old(levels)
      requires book.Of(s) == left && Filling(s, filled)
      requires id in orders && id in old(orders) && orders[id] == old(orders[id])
      requires old(IsResting(id)) ==> HasId(filled, id)
      ensures var spots := (if old(IsResting(id)) then map[] else map[id := old(SpotOf(id))]) + FilledSpots(filled);
        var swept := Swept(spots, s, left);
        id in spots && id in swept && swept[id] == SpotOf(id)
    {
      hide *;
      var x := orders[id];
      WasHoused(id);
      IsHousedAt(id);
      WithinParts(s);
      if old(orders[id].PriceLevel.Orders) != [] { StillStands(s, id); }
      SpotIs(id);
      WasSpot(id);
      FilledSpot(s, filled, id);
      SweptAt(if old(IsResting(id)) then map[] else map[id := old(SpotOf(id))], filled, s, left, id);
      if old(IsResting(id)) { RestedThere(id); }
    }

    twostate lemma FilledSpot(new s: Side, new filled: seq<Ord>, new id: nat)
      requires Filling(s, filled) && id in orders
      ensures HasId(filled, id) ==> old(IsResting(id)) && id in FilledSpots(filled) && orders[id].Order.Side == s
      ensures HasId(filled, id) ==> FilledSpots(filled)[id] == Spot(s, orders[id].Order.Price, Standing)
    {
      hide FilledSpots;
    }

    lemma SpotIs(id: nat)
      requires id in orders && orders[id].PriceLevel in levels
      ensures var x := orders[id];
        SpotOf(id) == Spot(x.Order.Side, x.Order.Price, if x.PriceLevel.Orders != [] then Standing else Gone)
    {
    }

    twostate lemma WasSpot(new id: nat)
      requires id in old(orders) && old(orders[id].PriceLevel in levels)
      ensures var x := old(orders[id]);
        old(SpotOf(id)) == Spot(x.Order.Side, x.Order.Price, if old(x.PriceLevel.Orders) != [] then Standing else Gone)
    {
    }

    twostate lemma RestedThere(new id: nat)
      requires old(IsResting(id))
      ensures old(orders[id].PriceLevel.Orders) != []
    {
    }

    /** What a match or a cancel on one side makes of the filled orders in the index. */
    twostate lemma SpotsAfter(new s: Side, new left: seq<Level>, new filled: seq<Ord>, new taken: set<nat>)
      requires old(AllHoused()) && Valid() && Within(s, old(OutlineOf(s))) && levels == old(levels)
      requires book.Of(s) == left && Filling(s, filled) && orders == old(orders) - taken
      requires forall id <- taken :: old(IsResting(id))
      requires forall id <- orders :: !IsResting(id) && old(IsResting(id)) ==> HasId(filled, id)
      requires forall id <- orders :: IsResting(id) ==> old(IsResting(id))
      ensures Spots() == Swept(old(Spots()) + FilledSpots(filled), s, left)
    {
      hide *;
      ValidIsHoused();
      SpotsAre();
      var was := old(Spots()) + FilledSpots(filled);
      SweptKeys(was, s, left);
      forall id | id in orders && !IsResting(id)
        ensures id in was && Swept(was, s, left)[id] == SpotOf(id)
      {
        SpotAfter(s, left, filled, id);
        var one := if old(IsResting(id)) then map[] else map[id := old(SpotOf(id))];
        SweptAlike(was, one + FilledSpots(filled), s, left, id);
        FilledSpot(s, filled, id);
      }
      forall id | id in was
        ensures id in orders && !IsResting(id)
      {
        FillingKeys(s, filled, id);
      }
    }

    twostate lemma FillingKeys(new s: Side, new filled: seq<Ord>, new id: nat)
      requires Filling(s, filled)
      ensures id in FilledSpots(filled) ==> id in orders && !IsResting(id)
    {
    }

    // ------------------------------------------------------------------ cancelling

    /** Where an indexed order rests: side, level and position in the queue. */
    lemma RestingPlace(id: nat) returns (s: Side, k: nat, i: nat)
      requires Linked() && IsResting(id)
      ensures s == orders[id].Order.Side && AtPosition(id, s, k, i)
    {
      hide AllShown, Shows, RBTree.Valid;
      var x := orders[id];
      s := x.Order.Side;
      assert Indexed(id, x);
      k :| k < |Contents(s)| && Contents(s)[k] == Entry(x.PriceLevel.Price, x.PriceLevel);
      i :| i < |x.PriceLevel.Orders| && x.PriceLevel.Orders[i] == x.Element;
      ShownAt(s, k);
    }

    ghost predicate AtPosition(id: nat, s: Side, k: nat, i: nat)
      reads this, Tree(s), levels
    {
      && id in orders && orders[id].PriceLevel in levels && k < |Contents(s)| && k < |book.Of(s)|
      && Contents(s)[k].level == orders[id].PriceLevel && i < |orders[id].PriceLevel.Orders|
      && orders[id].PriceLevel.Orders[i] == orders[id].Element
    }

    lemma ShownAt(s: Side, k: nat)
      requires Linked() && k < |Contents(s)|
      ensures k < |book.Of(s)| && Shows(Contents(s)[k], book.Of(s)[k])
    {
    }

    /** An ID occurs in one queue only, and there in one position only. */
    lemma IdsAreUnique(id: nat, s: Side, k: nat, i: nat, t: Side, j: nat, m: nat)
      requires Linked() && AtPosition(id, s, k, i) && j < |book.Of(t)| && m < |book.Of(t)[j].queue|
      requires book.Of(t)[j].queue[m].id == id
      ensures t == s && j == k && m == i
    {
      WasNow(t);
      ShownAt(t, j);
      ShownAt(s, k);
      var l := Contents(t)[j].level;
      assert l.Orders[m] in l.Orders;
      if s != t || k != j { LevelsDiffer(s, k, t, j); }
    }

    /** Whatever is in a queue is indexed under its ID, with its position. */
    lemma PositionOf(s: Side, k: nat, i: nat) returns (id: nat)
      requires Linked() && k < |book.Of(s)| && i < |book.Of(s)[k].queue|
      ensures id == book.Of(s)[k].queue[i].id && AtPosition(id, s, k, i)
    {
      hide Entries, Indexed, RBTree.Valid;
      id := book.Of(s)[k].queue[i].id;
      WasNow(s);
      ShownAt(s, k);
      var l := Contents(s)[k].level;
      assert l.Orders[i] in l.Orders;
    }

    lemma WasNow(s: Side)
      requires Linked()
      ensures |Contents(s)| == |book.Of(s)|
    {
    }

    lemma LevelsDiffer(s: Side, k: nat, t: Side, i: nat)
      requires Linked() && k < |Contents(s)| && i < |Contents(t)| && (s != t || k != i)
      ensures Contents(s)[k].level != Contents(t)[i].level
    {
      ShownAt(s, k);
      ShownAt(t, i);
      if s == t {
        var ks := Keys(Contents(s));
        assert if k < i then Before(Tree(s).desc, ks[k], ks[i]) else Before(Tree(s).desc, ks[i], ks[k]);
      } else {
        assert Contents(s)[k] in Contents(s) && Contents(t)[i] in Contents(t);
      }
    }

    /** The order at one position has been taken out of its queue and out of the index. */
    twostate predicate Unlinked(new id: nat, new s: Side, new k: nat, new i: nat)
      reads this, Tree(s), levels, members
    {
      && old(AtPosition(id, s, k, i)) && levels == old(levels) && members == old(members)
      && k < |Contents(s)| && Contents(s)[k].level == old(orders[id]).PriceLevel
      && var x, l := old(orders[id]), Contents(s)[k].level;
         && l.Orders == old(l.Orders)[..i] + old(l.Orders)[i + 1..] && l.Total == old(l.Total - x.Order.RemainAmount)
         && orders == old(orders) - {id}
         && (forall y <- old(levels) :: y != l ==> unchanged(y)) && (forall o <- members :: unchanged(o))
    }

    twostate lemma UnlinkedShows(en: Entry, new v: Level, new id: nat, new i: nat)
      requires old(Shows(en, v)) && levels == old(levels) && members == old(members) && orders == old(orders) - {id}
      requires i < |old(en.level.Orders)| && old(en.level.Orders)[i].order.ID == id
      requires en.level.Orders == old(en.level.Orders)[..i] + old(en.level.Orders)[i + 1..]
      requires en.level.Total == old(en.level.Total - en.level.Orders[i].order.RemainAmount)
      requires forall o <- members :: unchanged(o)
      ensures Shows(en, RemoveFromLevel(v, id))
    {
      hide Queue, RemoveFromLevel, PriceLevel.View;
      var es := old(en.level.Orders);
      assert forall j :: 0 <= j < |es| ==> es[j] in es;
      UnlinkedQueue(en.level, id, i);
      forall e | e in en.level.Orders
        ensures e in es && e.order.ID != id
      {
        var j :| 0 <= j < |en.level.Orders| && en.level.Orders[j] == e;
        assert e == if j < i then es[j] else es[j + 1];
      }
    }

    twostate lemma UnlinkedQueue(l: PriceLevel, new id: nat, new i: nat)
      requires i < |old(l.Orders)| && old(l.Orders)[i].order.ID == id
      requires l.Orders == old(l.Orders)[..i] + old(l.Orders)[i + 1..]
      requires l.Total == old(l.Total - l.Orders[i].order.RemainAmount)
      requires forall j :: 0 <= j < i ==> old(l.Orders)[j].order.ID != id
      requires forall e <- old(l.Orders) :: unchanged(e.order)
      ensures l.View() == RemoveFromLevel(old(l.View()), id)
    {
      var q := old(Queue(l.Orders));
      hide Queue, RemoveId, Find, HasId;
      RemoveAt(q, id, i);
      QueueAround(old(l.Orders), i);
      SameQueue(old(l.Orders));
    }

    twostate lemma UnlinkedIndexed(new id: nat, new s: Side, new k: nat, new i: nat, new other: nat)
      requires old(Linked()) && Unlinked(id, s, k, i) && unchanged(Bids) && unchanged(Asks)
      requires other in orders && old(orders[other]).PriceLevel == Contents(s)[k].level
      ensures other in old(orders) && Indexed(other, orders[other])
    {
      hide Entries, AllShown, Shows, RBTree.Valid, Spent;
      assert old(Indexed(other, orders[other])) && old(Indexed(id, orders[id]));
      var l, x, gone := Contents(s)[k].level, orders[other], old(orders[id]).Element;
      assert x.Element != gone;
      assert x.Element in old(l.Orders) ==> x.Element in l.Orders by {
        if x.Element in old(l.Orders) {
          var j :| 0 <= j < |old(l.Orders)| && old(l.Orders)[j] == x.Element;
          assert if j < i then l.Orders[j] == x.Element else l.Orders[j - 1] == x.Element;
        }
      }
      assert x.Element in l.Orders ==> x.Element in old(l.Orders);
    }

    twostate lemma UnlinkedIsLinked(new id: nat, new s: Side, new k: nat, new i: nat)
      requires old(Linked()) && unchanged(Bids) && unchanged(Asks) && Unlinked(id, s, k, i)
      requires book == old(book).With(s, old(book).Of(s)[k := RemoveFromLevel(old(book).Of(s)[k], id)])
      ensures Linked()
    {
      hide *;
      OneOfTheTrees(s);
      SameContents(s);
      UnlinkedParts(id, s, k, i);
      PlaceShown(s, k);
      UnlinkedShows(Contents(s)[k], old(book).Of(s)[k], id, i);
      UnlinkedOnly(id, s, k, i);
      forall x | x in orders && old(orders[x]).PriceLevel == Contents(s)[k].level
        ensures Indexed(x, orders[x])
      {
        UnlinkedIndexed(id, s, k, i, x);
      }
      TouchedIsLinked(s, k, {}, RemoveFromLevel(old(book).Of(s)[k], id));
    }

    twostate lemma UnlinkedParts(new id: nat, new s: Side, new k: nat, new i: nat)
      requires old(Linked()) && Unlinked(id, s, k, i)
      ensures k < |Contents(s)| && levels == old(levels) && members == old(members) && orders == old(orders) - {id}
      ensures var l := Contents(s)[k].level;
        && l in old(levels) && i < |old(l.Orders)| && old(l.Orders)[i].order.ID == id
        && l.Orders == old(l.Orders)[..i] + old(l.Orders)[i + 1..]
        && l.Total == old(l.Total - l.Orders[i].order.RemainAmount)
      ensures forall o <- members :: unchanged(o)
    {
      hide Entries, AllShown, Shows, RBTree.Valid, Spent;
      assert old(Indexed(id, orders[id]));
    }

    twostate lemma UnlinkedOnly(new id: nat, new s: Side, new k: nat, new i: nat)
      requires Unlinked(id, s, k, i)
      ensures OnlyAt(Contents(s)[k].level, {}) && orders.Keys <= old(orders).Keys
    {
      hide Entries;
    }

    /** Takes an indexed order out of the index, and out of its queue if it still rests there. */
    method Unlink(id: nat, entry: OrderEntry, ghost s: Side, ghost k: nat, ghost i: nat)
      requires Linked() && id in orders && orders[id] == entry && s == entry.Order.Side
      requires IsResting(id) ==> AtPosition(id, s, k, i)
      modifies this`orders, this`book, entry.PriceLevel
      ensures Linked() && orders == old(orders) - {id} && levels == old(levels) && members == old(members)
      ensures forall x <- orders :: IsResting(x) <==> old(IsResting(x))
      ensures !old(IsResting(id)) ==> book == old(book) && unchanged(entry.PriceLevel)
      ensures old(IsResting(id)) ==> k < |old(book).Of(s)| && var v := RemoveFromLevel(old(book).Of(s)[k], id);
        book == old(book).With(s, old(book).Of(s)[k := v]) && entry.PriceLevel.View() == v
    {
      hide *;
      ghost var resting := IsResting(id);
      if resting {
        OneOfTheTrees(s);
        WithoutPosition(id, s, k, i);
      } else {
        NotThere(id);
      }
      entry.PriceLevel.Remove(entry.Element);
      entry.PriceLevel.Total := entry.PriceLevel.Total - entry.Order.RemainAmount;
      orders := orders - {id};
      if resting {
        SameContents(s);
        book := book.With(s, book.Of(s)[k := RemoveFromLevel(book.Of(s)[k], id)]);
        IsUnlinked(id, s, k, i);
        UnlinkedIsLinked(id, s, k, i);
        UnlinkedView(id, s, k, i);
        UnlinkedResting(id, s, k, i);
      } else {
        ForgetsSpent(id);
        ForgottenSpots(id);
      }
    }

    /** Nobody else's place changes. */
    twostate lemma UnlinkedResting(new id: nat, new s: Side, new k: nat, new i: nat)
      requires old(Linked()) && Unlinked(id, s, k, i)
      ensures forall x <- orders :: IsResting(x) <==> old(IsResting(x))
    {
      hide Entries, AllShown, Shows, RBTree.Valid, Spent;
      forall other | other in orders
        ensures IsResting(other) <==> old(IsResting(other))
      {
        assert old(Indexed(other, orders[other])) && old(Indexed(id, orders[id]));
        var l, e, gone := Contents(s)[k].level, orders[other].Element, old(orders[id]).Element;
        assert e != gone;
        if e in old(l.Orders) {
          var j :| 0 <= j < |old(l.Orders)| && old(l.Orders)[j] == e;
          assert if j < i then l.Orders[j] == e else l.Orders[j - 1] == e;
        }
        assert e in l.Orders ==> e in old(l.Orders);
      }
    }

    twostate lemma ForgottenSpots(new id: nat)
      requires levels == old(levels) && orders == old(orders) - {id} && forall l <- levels :: unchanged(l)
      ensures forall x <- orders :: IsResting(x) <==> old(IsResting(x))
      ensures !old(IsResting(id)) ==> Spots() == old(Spots()) - {id}
    {
      SpotsAre();
    }

    twostate lemma UnlinkedView(new id: nat, new s: Side, new k: nat, new i: nat)
      requires old(Linked()) && Linked() && Unlinked(id, s, k, i) && k < |old(book).Of(s)|
      requires book == old(book).With(s, old(book).Of(s)[k := RemoveFromLevel(old(book).Of(s)[k], id)])
      ensures old(orders[id]).PriceLevel.View() == RemoveFromLevel(old(book).Of(s)[k], id)
    {
      hide Entries, Queue, RBTree.Valid, Indexed, RemoveFromLevel;
      ShownAt(s, k);
    }

    lemma WithoutPosition(id: nat, s: Side, k: nat, i: nat)
      requires Linked() && AtPosition(id, s, k, i)
      ensures var x := orders[id];
        Without(x.PriceLevel.Orders, x.Element) == x.PriceLevel.Orders[..i] + x.PriceLevel.Orders[i + 1..]
      ensures orders[id].PriceLevel in levels && k < |book.Of(s)|
    {
      ShownAt(s, k);
      WithoutAt(orders[id].PriceLevel.Orders, i);
    }

    lemma NotThere(id: nat)
      requires Linked() && id in orders && !IsResting(id)
      ensures var x := orders[id];
        Without(x.PriceLevel.Orders, x.Element) == x.PriceLevel.Orders && x.Order.RemainAmount == 0.0
    {
      hide AllShown, RBTree.Valid;
      assert Indexed(id, orders[id]);
      WithoutAbsent(orders[id].PriceLevel.Orders, orders[id].Element);
    }

    twostate lemma IsUnlinked(new id: nat, new s: Side, new k: nat, new i: nat)
      requires old(Linked() && AtPosition(id, s, k, i)) && unchanged(Bids) && unchanged(Asks)
      requires levels == old(levels) && members == old(members) && orders == old(orders) - {id}
      requires var x := old(orders[id]);
        && x.PriceLevel.Orders == old(x.PriceLevel.Orders)[..i] + old(x.PriceLevel.Orders)[i + 1..]
        && x.PriceLevel.Total == old(x.PriceLevel.Total - x.Order.RemainAmount)
        && forall y <- old(levels) :: y != x.PriceLevel ==> unchanged(y)
      requires forall o <- members :: unchanged(o)
      ensures Unlinked(id, s, k, i)
    {
      hide Entries, AllShown, Shows, RBTree.Valid, Spent, Indexed;
      SameContents(s);
    }

    twostate lemma ForgetsSpent(new id: nat)
      requires old(Linked() && id in orders && !IsResting(id)) && unchanged(Bids) && unchanged(Asks)
      requires levels == old(levels) && members == old(members) && orders == old(orders) - {id} && book == old(book)
      requires (forall l <- levels :: unchanged(l)) && (forall o <- members :: unchanged(o))
      ensures Linked()
    {
      hide *;
      TreesUntouched();
      ForgetsShown(id, Buy);
      ForgetsShown(id, Sell);
      ForgetsIndexed(id);
      FitsTogether();
    }

    twostate lemma ForgetsShown(new id: nat, new s: Side)
      requires old(Linked() && id in orders && !IsResting(id)) && unchanged(Bids) && unchanged(Asks)
      requires levels == old(levels) && members == old(members) && orders == old(orders) - {id} && book == old(book)
      requires (forall l <- levels :: unchanged(l)) && (forall o <- members :: unchanged(o))
      ensures AllShown(Contents(s), book.Of(s))
    {
      hide Entries, Queue, Indexed, RBTree.Valid;
      SameContents(s);
      forall i | 0 <= i < |Contents(s)|
        ensures Shows(Contents(s)[i], book.Of(s)[i])
      {
        assert old(Shows(Contents(s)[i], book.Of(s)[i]));
      }
    }

    twostate lemma ForgetsIndexed(new id: nat)
      requires old(Linked()) && unchanged(Bids) && unchanged(Asks)
      requires levels == old(levels) && members == old(members) && orders == old(orders) - {id}
      requires (forall l <- levels :: unchanged(l)) && (forall o <- members :: unchanged(o))
      ensures forall x <- orders :: Indexed(x, orders[x])
    {
      hide Entries, Spent, AllShown, Shows, RBTree.Valid;
      forall x | x in orders
        ensures Indexed(x, orders[x])
      {
        assert old(Indexed(x, orders[x]));
      }
    }

    /** Takes the level of a price out of its tree, whichever level that is: right if and only if no order rests
        there. */
    method DeleteLevel(isBuy: bool, price: real, ghost s: Side)
      requires Linked() && isBuy == (s == Buy)
      modifies this`book, Tree(s)
      ensures book == old(book).With(s, DropPrice(s, old(book).Of(s), price))
      ensures Linked() <==> Droppable(s, old(book).Of(s), price)
      ensures orders == old(orders) && levels == old(levels) && members == old(members)
      ensures (forall x <- Contents(s) :: x in old(Contents(s)))
      ensures Contents(s.Opposite()) == old(Contents(s.Opposite()))
    {
      hide *;
      DropsFewer(s, price);
      ghost var k := PlaceOf(s, book.Of(s), price);
      SamePlace(s, price);
      TwoTrees(s);
      TreeNames(s);
      WhatDropDoes(s, price);
      if isBuy {
        Bids.Delete(price);
      } else {
        Asks.Delete(price);
      }
      book := book.With(s, DropPrice(s, book.Of(s), price));
      BothValid(s);
      if !old(HasPrice(s, book.Of(s), price)) {
        NothingDropped(s);
      } else if old(book).Of(s)[k].queue == [] {
        DroppedIsLinked(s, k);
      } else {
        WronglyDropped(s, k);
      }
    }

    lemma DropsFewer(s: Side, price: real)
      ensures forall x <- Drop(Desc(s), Contents(s), price) :: x in Contents(s)
    {
    }

    lemma TreeNames(s: Side)
      ensures Tree(s) == if s == Buy then Bids else Asks
    {
    }

    lemma WhatDropDoes(s: Side, price: real)
      requires Linked()
      ensures var es, ls, k := Contents(s), book.Of(s), PlaceOf(s, book.Of(s), price);
        && |es| == |ls|
        && (Droppable(s, ls, price) <==> (HasPrice(s, ls, price) ==> k < |ls| && ls[k].queue == []))
        && if HasPrice(s, ls, price) then k < |ls| &&
             Drop(Desc(s), es, price) == es[..k] + es[k + 1..] && DropPrice(s, ls, price) == ls[..k] + ls[k + 1..]
           else Drop(Desc(s), es, price) == es && book.With(s, DropPrice(s, ls, price)) == book
    {
      SamePlace(s, price);
    }

    twostate lemma NothingDropped(new s: Side)
      requires old(Linked()) && Bids.Valid() && Asks.Valid()
      requires Contents(s) == old(Contents(s)) && Contents(s.Opposite()) == old(Contents(s.Opposite()))
      requires levels == old(levels) && members == old(members) && orders == old(orders) && book == old(book)
      requires (forall l <- levels :: unchanged(l)) && (forall o <- members :: unchanged(o))
      ensures Linked()
    {
      hide *;
      WasShown(s, 0);
      WasShown(s.Opposite(), 0);
      StillShown(old(Contents(s)), old(book).Of(s));
      StillShown(old(Contents(s.Opposite())), old(book).Of(s.Opposite()));
      OldTrees(s);
      IndexStays(s);
      FitsOn(s);
    }

    /** A level has been taken out of its tree while orders rest there: they are indexed, but cannot be reached. */
    twostate lemma WronglyDropped(new s: Side, new k: nat)
      requires old(Linked()) && k < |old(Contents(s))| && k < |old(book).Of(s)| && old(book).Of(s)[k].queue != []
      requires Contents(s) == old(Contents(s))[..k] + old(Contents(s))[k + 1..]
      requires orders == old(orders) && forall l <- old(levels) :: unchanged(l)
      ensures !Linked()
    {
      hide Entries, RBTree.Valid;
      var en := old(Contents(s))[k];
      assert old(Shows(Contents(s)[k], book.Of(s)[k]));
      var e := old(en.level.Orders)[0];
      assert e in old(en.level.Orders);
      var id := e.order.ID;
      assert old(Indexed(id, orders[id]));
      InOneTree(s, k, id);
      assert !Indexed(id, orders[id]);
    }

    twostate lemma InOneTree(new s: Side, new k: nat, new id: nat)
      requires old(Linked()) && k < |old(Contents(s))| && id in old(orders)
      requires Contents(s) == old(Contents(s))[..k] + old(Contents(s))[k + 1..]
      requires var en := old(Contents(s))[k]; Entry(en.level.Price, en.level) in old(Contents(orders[id].Order.Side))
      ensures old(orders[id]).Order.Side == s
      ensures var en := old(Contents(s))[k]; Entry(en.level.Price, en.level) !in Contents(s)
    {
      hide *;
      var en, t := old(Contents(s))[k], old(orders[id]).Order.Side;
      var j :| 0 <= j < |old(Contents(t))| && old(Contents(t))[j] == Entry(en.level.Price, en.level);
      if t != s || j != k { OldLevelsDiffer(s, k, t, j); }
      forall m | 0 <= m < |Contents(s)|
        ensures Contents(s)[m] != Entry(en.level.Price, en.level)
      {
        OldLevelsDiffer(s, k, s, if m < k then m else m + 1);
      }
    }

    /** Cancelling a filled order takes whatever level is at its price out of the tree, if its own has become empty. */
    ghost predicate HarmlessToForget(id: nat)
      requires id in orders
      reads this, levels
    {
      var x := SpotOf(id);
      x.home.Standing? || !HasPrice(x.side, book.Of(x.side), x.price)
    }

    method RemoveOrder(orderID: nat) returns (order: Order?)
      requires Valid()
      modifies this, Bids, Asks, levels
      ensures order == if orderID in old(orders) then old(orders[orderID].Order) else null
      ensures orders == old(orders) - {orderID} && levels == old(levels) && members == old(members)
      ensures orderID !in old(orders) ==> Valid() && book == old(book) && Spots() == old(Spots())
      ensures old(IsResting(orderID)) ==> Valid() && book == Cancel(old(book), orderID)
      ensures old(IsResting(orderID)) ==>
        order != null && Spots() == Swept(old(Spots()), order.Side, book.Of(order.Side))
      ensures old(orderID in orders && !IsResting(orderID)) ==>
        var x := old(SpotOf(orderID));
        var ls := old(book).Of(x.side);
        && (Valid() <==> old(HarmlessToForget(orderID))) && Spots() == old(Spots()) - {orderID}
        && book == if x.home.Standing? then old(book) else old(book).With(x.side, DropPrice(x.side, ls, x.price))
    {
      hide *;
      BookIsOk();
      ValidIsHoused();
      RestingIsIndexed(orderID);
      if orderID !in orders {
        return null;
      }
      var entry := orders[orderID];
      ghost var s, k, i, resting := entry.Order.Side, 0, 0, IsResting(orderID);
      EntryIsKnown(orderID);
      if resting {
        s, k, i := RestingPlace(orderID);
        CancelledBook(orderID, s, k, i);
        HasOrders(orderID);
      } else {
        NothingToDrop(book, s, entry.Order.Price);
      }
      Unlink(orderID, entry, s, k, i);
      EmptyLevel(entry.PriceLevel);
      SameContents(s);
      SameContents(s.Opposite());
      label Unlinked:
      if entry.PriceLevel.IsEmpty() {
        DeleteLevel(entry.Order.IsBuy(), entry.Order.Price, s);
      }
      RestingOnly@Unlinked();
      ValidIff();
      if resting {
        CancelWithin(s, entry.PriceLevel);
        NoneFilling(s);
        SpotsAfter(s, book.Of(s), [], {orderID});
        NothingMore(old(Spots()));
      } else {
        ForgottenSpots(orderID);
      }
      return entry.Order;
    }

    lemma HasOrders(id: nat)
      requires IsResting(id)
      ensures orders[id].PriceLevel.Orders != [] && orders[id].PriceLevel in levels
    {
    }

    twostate lemma RestingOnly()
      requires orders == old(orders) && levels == old(levels) && forall l <- levels :: unchanged(l)
      ensures forall id <- orders :: IsResting(id) <==> old(IsResting(id))
    {
    }

    twostate lemma CancelWithin(new s: Side, new level: PriceLevel)
      requires levels == old(levels) && level in levels && old(level.Orders) != []
      requires (forall x <- Contents(s) :: x in old(Contents(s)))
      requires Contents(s.Opposite()) == old(Contents(s.Opposite()))
      requires forall l <- levels :: l == level || unchanged(l)
      ensures Within(s, old(OutlineOf(s)))
    {
      hide Entries;
    }

    twostate lemma NoneFilling(new s: Side)
      ensures Filling(s, [])
    {
    }

    lemma RestingIsIndexed(id: nat)
      ensures IsResting(id) ==> id in orders
    {
    }

    lemma RestingAreIndexed()
      ensures forall id: nat :: IsResting(id) ==> id in orders
    {
    }

    lemma EmptyLevel(l: PriceLevel)
      ensures (l.IsEmpty() <==> l.Orders == []) && (l.IsEmpty() <==> l.View().queue == [])
    {
    }

    lemma ValidIff()
      ensures Valid() <==> BookOk(book) && Linked()
    {
    }

    lemma EntryIsKnown(id: nat)
      requires Linked() && id in orders
      ensures var x := orders[id];
        && x.PriceLevel in levels && (Tree(x.Order.Side) == Bids || Tree(x.Order.Side) == Asks)
        && x.Order.IsBuy() == (x.Order.Side == Buy)
        && SpotOf(id) == Spot(x.Order.Side, x.Order.Price, if x.PriceLevel.Orders != [] then Standing else Gone)
        && (HarmlessToForget(id) <==>
            x.PriceLevel.Orders != [] || !HasPrice(x.Order.Side, book.Of(x.Order.Side), x.Order.Price))
    {
      hide Entries, AllShown, Shows, Spent, RBTree.Valid;
      assert Indexed(id, orders[id]);
    }

    /** What Unlink and DeleteLevel do together is to cancel. */
    lemma CancelledBook(id: nat, s: Side, k: nat, i: nat)
      requires Linked() && BookOk(book) && AtPosition(id, s, k, i)
      ensures BookOk(Cancel(book, id)) && k < |book.Of(s)|
      ensures var v, price := RemoveFromLevel(book.Of(s)[k], id), orders[id].Order.Price;
        var ls := book.Of(s)[k := v];
        && (v.queue != [] ==> Cancel(book, id) == book.With(s, ls))
        && (v.queue == [] ==> Droppable(s, ls, price) && book.With(s, ls).Of(s) == ls)
        && (v.queue == [] ==> Cancel(book, id) == book.With(s, ls).With(s, DropPrice(s, ls, price)))
    {
      hide Entries, RemoveFromLevel, Indexed;
      PriceOfEntry(id, s, k, i);
      var ls := book.Of(s);
      assert ls[k].queue[i].id == id;
      forall t: Side, j | 0 <= j < |book.Of(t)| && HasId(book.Of(t)[j].queue, id)
        ensures t == s && j == k
      {
        var m :| 0 <= m < |book.Of(t)[j].queue| && book.Of(t)[j].queue[m].id == id;
        IdsAreUnique(id, s, k, i, t, j, m);
      }
      hide AllShown, Shows, RBTree.Valid, Linked, AtPosition;
      CancelIsThere(book, id, s, k);
    }

    lemma PriceOfEntry(id: nat, s: Side, k: nat, i: nat)
      requires Linked() && AtPosition(id, s, k, i)
      ensures var v := book.Of(s)[k]; v.price == orders[id].Order.Price && i < |v.queue| && v.queue[i].id == id
    {
      hide Entries, AllShown, Spent, RBTree.Valid;
      ShownAt(s, k);
      assert Indexed(id, orders[id]);
    }

    /** What a cancel is about to take out: the resting order, found under its ID on its own side only. */
    lemma RestingIsFound(id: nat)
      requires Linked() && IsResting(id)
      ensures id in orders && orders[id].Order in members
      ensures var o := orders[id].Order;
        && SideHas(book.Of(o.Side), id) && !SideHas(book.Of(o.Side.Opposite()), id)
        && BookLaws.Resting(book.Of(o.Side), id) == o.View()
    {
      hide *;
      var s, k, i := RestingPlace(id);
      QueueAt(id, s, k, i);
      var ls := book.Of(s);
      forall j | 0 <= j < i
        ensures ls[k].queue[j].id != id
      {
        if ls[k].queue[j].id == id { IdsAreUnique(id, s, k, i, s, k, j); }
      }
      RemoveAt(ls[k].queue, id, i);
      forall t: Side, j | 0 <= j < |book.Of(t)| && HasId(book.Of(t)[j].queue, id)
        ensures t == s && j == k
      {
        var m := WhereId(book.Of(t)[j].queue, id);
        IdsAreUnique(id, s, k, i, t, j, m);
      }
      CancelAt(ls, id, k);
      OnlyOneSide(book, id, s, k);
    }

    lemma QueueAt(id: nat, s: Side, k: nat, i: nat)
      requires Linked() && AtPosition(id, s, k, i)
      ensures id in orders && orders[id].Order in members && k < |book.Of(s)| && i < |book.Of(s)[k].queue|
      ensures var o := book.Of(s)[k].queue[i]; o == orders[id].Order.View() && o.id == id
    {
      hide Entries, AllShown, Spent, RBTree.Valid;
      ShownAt(s, k);
      assert Indexed(id, orders[id]);
    }

    lemma NoneRests(id: nat)
      requires Linked() && !IsResting(id)
      ensures !SideHas(book.bids, id) && !SideHas(book.asks, id)
    {
      NoneRestsOn(id, Buy);
      NoneRestsOn(id, Sell);
    }

    lemma NoneRestsOn(id: nat, s: Side)
      requires Linked() && !IsResting(id)
      ensures !SideHas(book.Of(s), id)
    {
      hide Entries, Indexed, RBTree.Valid, Linked;
      WasNow(s);
      forall j, m | 0 <= j < |book.Of(s)| && 0 <= m < |book.Of(s)[j].queue|
        ensures book.Of(s)[j].queue[m].id != id
      {
        ShownAt(s, j);
        var l := Contents(s)[j].level;
        assert l.Orders[m] in l.Orders;
      }
      NobodyHas(book.Of(s), id);
    }

    /** The index finds exactly the orders that rest. */
    ghost predicate RestsAreFound()
      reads this, levels
    {
      forall id: nat :: IsResting(id) <==> SideHas(book.bids, id) || SideHas(book.asks, id)
    }

    lemma FindsAll()
      requires Linked()
      ensures RestsAreFound()
    {
      hide *;
      forall id: nat
        ensures IsResting(id) <==> SideHas(book.bids, id) || SideHas(book.asks, id)
      {
        if IsResting(id) { RestingIsFound(id); } else { NoneRests(id); }
        SidesOfBook(id);
      }
      FoundIff();
    }

    lemma SidesOfBook(id: nat)
      ensures forall s: Side :: SideHas(book.Of(s), id) ==> SideHas(book.bids, id) || SideHas(book.asks, id)
    {
      hide SideHas;
    }

    lemma FoundIff()
      ensures RestsAreFound() <==> forall id: nat :: IsResting(id) <==> SideHas(book.bids, id) || SideHas(book.asks, id)
    {
      hide IsResting, SideHas;
    }

    /** Only an order that is in no queue and not in the index has changed. */
    twostate predicate OnlyOutside(new o: Order)
      reads this, Bids, Asks, levels, members
    {
      && o.ID !in orders && unchanged(this) && unchanged(Bids) && unchanged(Asks)
      && (forall l <- levels :: unchanged(l)) && (forall m <- members :: m != o ==> unchanged(m))
    }

    twostate lemma OutsideStatus(new o: Order)
      requires o.ID !in orders && unchanged(this) && unchanged(Bids) && unchanged(Asks)
      requires (forall l <- levels :: unchanged(l)) && (forall m <- members :: m != o ==> unchanged(m))
      ensures OnlyOutside(o)
    {
    }

    lemma EntryIsMember(id: nat)
      requires Linked()
      ensures id in orders ==> orders[id].Order in members && orders[id].Order.ID == id
    {
      hide Entries, AllShown, Shows, Spent, RBTree.Valid;
      if id in orders { assert Indexed(id, orders[id]); }
    }

    /** The book does not care about such an order. */
    twostate lemma OutsideChange(new o: Order)
      requires OnlyOutside(o)
      ensures Linked() <==> old(Linked())
    {
      SameContents(Buy);
      SameContents(Sell);
      hide Entries, Indexed, RBTree.Valid, Shows;
      if old(Linked()) {
        OutsideSide(o, Buy);
        OutsideSide(o, Sell);
        forall id | id in orders
          ensures Indexed(id, orders[id])
        {
          OutsideIndexed(o, id);
        }
      }
      if Linked() {
        OutsideSide(o, Buy);
        OutsideSide(o, Sell);
        forall id | id in orders
          ensures old(Indexed(id, orders[id]))
        {
          OutsideIndexed(o, id);
        }
      }
    }

    twostate lemma OutsideSide(new o: Order, new s: Side)
      requires OnlyOutside(o)
      ensures AllShown(Contents(s), book.Of(s)) <==> old(AllShown(Contents(s), book.Of(s)))
    {
      SameContents(s);
      hide Entries, Shows;
      if old(AllShown(Contents(s), book.Of(s))) {
        forall i | 0 <= i < |Contents(s)|
          ensures Shows(Contents(s)[i], book.Of(s)[i])
        {
          assert old(Shows(Contents(s)[i], book.Of(s)[i]));
          ShowsKnown(Contents(s)[i], book.Of(s)[i]);
          OutsideShown(o, Contents(s)[i], book.Of(s)[i]);
        }
      }
      if AllShown(Contents(s), book.Of(s)) {
        forall i | 0 <= i < |Contents(s)|
          ensures old(Shows(Contents(s)[i], book.Of(s)[i]))
        {
          assert Shows(Contents(s)[i], book.Of(s)[i]);
          ShowsKnown(Contents(s)[i], book.Of(s)[i]);
          OutsideShown(o, Contents(s)[i], book.Of(s)[i]);
        }
      }
    }

    lemma ShowsKnown(en: Entry, v: Level)
      ensures Shows(en, v) ==> en.level in levels
    {
    }

    twostate lemma OutsideShown(new o: Order, en: Entry, new v: Level)
      requires OnlyOutside(o)
      ensures Shows(en, v) <==> old(Shows(en, v))
    {
      hide Entries, Queue, PriceLevel.View;
      var l := en.level;
      if l in levels && forall e <- l.Orders :: e.order in members && e.order.ID in orders {
        SameQueue(l.Orders);
        SameView(l);
      }
    }

    twostate lemma OutsideIndexed(new o: Order, new id: nat)
      requires OnlyOutside(o) && id in orders
      ensures Indexed(id, orders[id]) <==> old(Indexed(id, orders[id]))
    {
      hide Entries, Queue, Spent;
    }

    // ------------------------------------------------------------------ matching

    /** The first n orders of the best level have been filled and are gone from its queue; others there may have
        changed. */
    twostate predicate Consumed(new s: Side, new n: nat, new rest: seq<Ord>)
      reads this, Tree(s), levels, members
    {
      && Contents(s) != [] && Contents(s)[0].level in old(levels) && levels == old(levels) && members == old(members)
      && orders == old(orders)
      && var l := Contents(s)[0].level; var es := old(l.Orders);
         && n <= |es| && l.Orders == es[n..] && l.Total == old(l.Total) && (forall e <- es :: e.order in members)
         && Queue(es[n..]) == rest && (forall i :: 0 <= i < n ==> Spent(es[i].order.View()))
         && (forall x <- levels :: x != l ==> unchanged(x))
         && (forall o <- members :: (forall e <- es :: e.order != o) ==> unchanged(o))
    }

    twostate lemma ConsumedShows(en: Entry, new v: Level, new n: nat)
      requires old(Shows(en, v)) && levels == old(levels) && members == old(members) && orders == old(orders)
      requires n <= |old(en.level.Orders)| && en.level.Orders == old(en.level.Orders)[n..]
      requires en.level.Total == old(en.level.Total)
      ensures Shows(en, v.(queue := Queue(old(en.level.Orders)[n..])))
    {
      hide Queue;
    }

    twostate lemma ConsumedOnly(new s: Side, new n: nat, new rest: seq<Ord>)
      requires Consumed(s, n, rest)
      ensures var l := Contents(s)[0].level; OnlyAt(l, set e | e in old(l.Orders) :: e.order)
    {
      hide Entries, Queue;
    }

    twostate lemma ConsumedIndexed(new s: Side, new n: nat, new rest: seq<Ord>, new id: nat)
      requires old(Linked()) && Consumed(s, n, rest) && unchanged(Bids) && unchanged(Asks)
      requires id in orders && orders[id].PriceLevel == Contents(s)[0].level
      ensures Indexed(id, orders[id])
    {
      hide Entries, Queue, RBTree.Valid, Spent;
      var l, x := Contents(s)[0].level, orders[id];
      PlaceShown(s, 0);
      assert old(Indexed(id, orders[id]));
      var es := old(l.Orders);
      if x.Element in es {
        var i :| 0 <= i < |es| && es[i] == x.Element;
        assert i >= n ==> l.Orders[i - n] == x.Element;
      } else {
        assert forall e <- es :: e.order != x.Order;
      }
      assert x.Element in l.Orders ==> x.Element in es;
    }

    twostate lemma ConsumedIsLinked(new s: Side, new n: nat, new rest: seq<Ord>)
      requires old(Linked()) && Consumed(s, n, rest) && unchanged(Bids) && unchanged(Asks) && old(book).Of(s) != []
      requires book == old(book).With(s, old(book).Of(s)[0 := old(book).Of(s)[0].(queue := rest)])
      ensures Linked()
    {
      hide *;
      OneOfTheTrees(s);
      SameContents(s);
      ConsumedParts(s, n, rest);
      PlaceShown(s, 0);
      ConsumedShows(Contents(s)[0], old(book).Of(s)[0], n);
      ConsumedOnly(s, n, rest);
      forall id | id in orders && orders[id].PriceLevel == Contents(s)[0].level
        ensures Indexed(id, orders[id])
      {
        ConsumedIndexed(s, n, rest, id);
      }
      var l := Contents(s)[0].level;
      TouchedIsLinked(s, 0, set e | e in old(l.Orders) :: e.order, old(book).Of(s)[0].(queue := rest));
    }

    twostate lemma ConsumedParts(new s: Side, new n: nat, new rest: seq<Ord>)
      requires Consumed(s, n, rest)
      ensures |Contents(s)| > 0 && levels == old(levels) && members == old(members) && orders == old(orders)
      ensures var l := Contents(s)[0].level;
        && l in old(levels) && n <= |old(l.Orders)| && l.Orders == old(l.Orders)[n..] && l.Total == old(l.Total)
        && Queue(old(l.Orders)[n..]) == rest
    {
      hide Entries, Queue;
    }

    // ------------------------------------------------------------------ reading

    /** The order of an ID: one that rests is the very order that a search through its side of the book finds; any other
        that is still known has been filled, and neither side has it. */
    method GetOrder(orderID: nat) returns (order: Order?)
      requires Linked()
      ensures order == null ==> !SideHas(book.bids, orderID) && !SideHas(book.asks, orderID)
      ensures order != null ==> order in members && order.ID == orderID && orderID in orders
      ensures order != null && IsResting(orderID) ==>
        var ls, others := book.Of(order.Side), book.Of(order.Side.Opposite());
        SideHas(ls, orderID) && order.View() == BookLaws.Resting(ls, orderID) && !SideHas(others, orderID)
      ensures order != null && !IsResting(orderID) ==>
        Spent(order.View()) && !SideHas(book.bids, orderID) && !SideHas(book.asks, orderID)
    {
      hide *;
      RestingIsIndexed(orderID);
      if IsResting(orderID) { RestingIsFound(orderID); } else { NoneRests(orderID); }
      if orderID in orders {
        KnownOrder(orderID);
        return orders[orderID].Order;
      }
      return null;
    }

    lemma KnownOrder(id: nat)
      requires Linked() && id in orders
      ensures var o := orders[id].Order; o in members && o.ID == id && (!IsResting(id) ==> Spent(o.View()))
    {
      hide Entries, AllShown, Shows, Spent, RBTree.Valid;
      assert Indexed(id, orders[id]);
    }

    /** The first level of a side, as an object and as a value. */
    ghost predicate IsBest(level: PriceLevel?, s: Side)
      reads this, Tree(s), levels, members
    {
      && (book.Of(s) == [] <==> level == null)
      && (level != null ==> level in levels && Contents(s) != [] && Contents(s)[0].level == level)
      && (level != null ==> Shows(Contents(s)[0], book.Of(s)[0]))
    }

    lemma FirstIsBest(s: Side)
      requires Linked()
      ensures IsBest(if Contents(s) == [] then null else Contents(s)[0].level, s)
    {
      hide Entries;
      WasNow(s);
      if Contents(s) != [] { ShownAt(s, 0); }
    }

    method GetBestBid() returns (level: PriceLevel?)
      requires Linked()
      ensures IsBest(level, Buy)
    {
      FirstIsBest(Buy);
      ghost var steps;
      level, steps := Bids.Max();
    }

    method GetBestAsk() returns (level: PriceLevel?)
      requires Linked()
      ensures IsBest(level, Sell)
    {
      FirstIsBest(Sell);
      ghost var steps;
      level, steps := Asks.Min();
    }

    lemma SideIsSeen(s: Side)
      requires Linked()
      ensures Tree(s).Valid() && Sights(Contents(s)) == Shown(book.Of(s))
    {
      hide Entries, Queue, Indexed;
      forall i | 0 <= i < |Contents(s)|
        ensures Sights(Contents(s))[i] == Shown(book.Of(s))[i]
      {
        ShownAt(s, i);
      }
    }

    lemma BothTrees()
      requires Linked()
      ensures Bids.Valid() && Asks.Valid() && Contents(Buy) == Bids.Contents() && Contents(Sell) == Asks.Contents()
      ensures book.Of(Buy) == book.bids && book.Of(Sell) == book.asks
    {
    }

    /** The first levels of both sides: what is there to buy and to sell. */
    method GetDepth(limit: nat) returns (bids: seq<DepthLevel>, asks: seq<DepthLevel>)
      requires Linked()
      ensures bids == TopLevels(book.bids, limit) && asks == TopLevels(book.asks, limit)
    {
      hide *;
      SideIsSeen(Buy);
      SideIsSeen(Sell);
      DepthIsVisited(book.bids, limit, 0, []);
      DepthIsVisited(book.asks, limit, 0, []);
      BothTrees();
      bids := Bids.Ascend(Collect(limit), (0, [])).1;
      asks := Asks.Ascend(Collect(limit), (0, [])).1;
    }

    method GetBidCount() returns (n: int)
      requires Linked()
      ensures n == |book.bids|
    {
      WasNow(Buy);
      n := Bids.Size();
    }

    method GetAskCount() returns (n: int)
      requires Linked()
      ensures n == |book.asks|
    {
      WasNow(Sell);
      n := Asks.Size();
    }
  }

  ghost predicate OnePerKey(es: seq<Entry>) {
    forall x, y :: x in es && y in es && x.key == y.key ==> x == y
  }

  lemma SortedHasOnePerKey(desc: bool, es: seq<Entry>)
    requires Sorted(desc, Keys(es))
    ensures OnePerKey(es)
  {
    hide Before;
    forall x, y | x in es && y in es && x.key == y.key
      ensures x == y
    {
      var i :| 0 <= i < |es| && es[i] == x;
      var j :| 0 <= j < |es| && es[j] == y;
      if i != j { NotBefore(desc, Keys(es), i, j); }
    }
  }

  lemma NotBefore(desc: bool, ks: seq<real>, i: nat, j: nat)
    requires Sorted(desc, ks) && i < |ks| && j < |ks| && i != j
    ensures ks[i] != ks[j]
  {
    assert if i < j then Before(desc, ks[i], ks[j]) else Before(desc, ks[j], ks[i]);
  }

  lemma SameEntry(es: seq<Entry>, a: Entry, b: Entry)
    requires OnePerKey(es) && a in es && b in es && a.key == b.key
    ensures a == b
  {
  }

  lemma NothingMore(spots: map<nat, Spot>)
    ensures spots + FilledSpots([]) == spots
  {
  }

  lemma SweptKeys(spots: map<nat, Spot>, s: Side, ls: seq<Level>)
    ensures Swept(spots, s, ls).Keys == spots.Keys
  {
  }

  lemma SweptAlike(a: map<nat, Spot>, b: map<nat, Spot>, s: Side, ls: seq<Level>, id: nat)
    requires id in a && id in b && a[id] == b[id]
    ensures id in Swept(a, s, ls) && id in Swept(b, s, ls) && Swept(a, s, ls)[id] == Swept(b, s, ls)[id]
  {
  }

  lemma SweptAt(spots: map<nat, Spot>, filled: seq<Ord>, s: Side, ls: seq<Level>, id: nat)
    requires id in spots || HasId(filled, id)
    ensures var all := spots + FilledSpots(filled);
      && id in all && id in Swept(all, s, ls)
      && all[id] == (if HasId(filled, id) then FilledSpots(filled)[id] else spots[id])
      && var x := all[id];
         Swept(all, s, ls)[id] ==
           if x.side == s && x.home.Standing? && !HasPrice(s, ls, x.price) then x.(home := Gone) else x
  {
  }

  lemma AddKeepsOk(b: Book, s: Side, o: Ord)
    requires BookOk(b) && Rests(o, s, o.price)
    ensures BookOk(Add(b, o))
  {
    AddIsOk(s, b.Of(s), o);
  }

  /** Adding an order is appending it to the level of its price, opened first if need be. */
  lemma AddIsAppend(b: Book, s: Side, o: Ord)
    requires o.side == s
    ensures var b1, k := b.With(s, Opened(s, b.Of(s), o.price)), PlaceOf(s, b.Of(s), o.price);
      k < |b1.Of(s)| && Add(b, o) == b1.With(s, b1.Of(s)[k := Append(b1.Of(s)[k], o)])
  {
    var ls, k := b.Of(s), PlaceOf(s, b.Of(s), o.price);
    hide Append;
    if !HasPrice(s, ls, o.price) {
      var e := Level(o.price, [], 0.0);
      assert (ls[..k] + [e] + ls[k..])[k := Append(e, o)] == ls[..k] + [Append(e, o)] + ls[k..];
    }
  }

  lemma {:induction false} WithoutAbsent(es: seq<Element>, e: Element)
    requires e !in es
    ensures Without(es, e) == es
  {
    if es != [] { WithoutAbsent(es[1..], e); }
  }

  datatype DepthLevel = DepthLevel(Price: real, Amount: real)

  function Shown(ls: seq<Level>): seq<Sight> { seq(|ls|, i requires 0 <= i < |ls| => Sight(ls[i].price, ls[i])) }

  /** The first levels, at most limit of them. */
  function TopLevels(ls: seq<Level>, limit: nat): seq<DepthLevel> {
    seq(if limit < |ls| then limit else |ls|, i requires 0 <= i < |ls| => DepthLevel(ls[i].price, ls[i].total))
  }

  /** The callback of GetDepth, with the variables it captures as its state. */
  function Collect(limit: nat): ((int, seq<DepthLevel>), Sight) -> ((int, seq<DepthLevel>), bool) {
    (a: (int, seq<DepthLevel>), s: Sight) =>
      if a.0 >= limit then (a, false) else ((a.0 + 1, a.1 + [DepthLevel(s.key, s.level.total)]), true)
  }

  lemma {:induction false} DepthIsVisited(ls: seq<Level>, limit: nat, count: nat, before: seq<DepthLevel>)
    requires count <= limit
    ensures Visit(Collect(limit), (count, before), Shown(ls)).0.1 == before + TopLevels(ls, limit - count)
  {
    if ls != [] {
      assert Shown(ls)[1..] == Shown(ls[1..]);
      if count < limit {
        DepthIsVisited(ls[1..], limit, count + 1, before + [DepthLevel(ls[0].price, ls[0].total)]);
        var first := DepthLevel(ls[0].price, ls[0].total);
        assert TopLevels(ls, limit - count) == [first] + TopLevels(ls[1..], limit - count - 1);
      }
    }
  }

  /** The depth of a well-formed side starts with its best level and gets strictly worse. */
  lemma DepthIsSorted(s: Side, ls: seq<Level>, limit: nat)
    requires SideOk(ls, s)
    ensures |TopLevels(ls, limit)| == if limit < |ls| then limit else |ls|
    ensures var top := TopLevels(ls, limit);
      && (forall i, j :: 0 <= i < j < |top| ==>
            if s == Buy then top[i].Price > top[j].Price else top[i].Price < top[j].Price)
      && (forall i :: 0 <= i < |top| ==> top[i].Price == ls[i].price && top[i].Amount == ls[i].total)
    ensures limit > 0 && ls != [] ==> TopLevels(ls, limit)[0] == DepthLevel(ls[0].price, ls[0].total)
  {
    forall i, j | 0 <= i < j < |TopLevels(ls, limit)|
      ensures Before(Desc(s), TopLevels(ls, limit)[i].Price, TopLevels(ls, limit)[j].Price)
    {
      assert Before(Desc(s), Prices(ls)[i], Prices(ls)[j]);
    }
  }

  /** A price whose level may be taken away: it has none, or an empty one. */
  predicate Droppable(s: Side, ls: seq<Level>, price: real) {
    HasPrice(s, ls, price) ==> ls[PlaceOf(s, ls, price)].queue == []
  }

  lemma NothingToDrop(b: Book, s: Side, price: real)
    requires BookOk(b)
    ensures Droppable(s, b.Of(s), price) <==> !HasPrice(s, b.Of(s), price)
    ensures Droppable(s, b.Of(s), price) ==> b.With(s, DropPrice(s, b.Of(s), price)) == b
  {
    var k := PlaceOf(s, b.Of(s), price);
    if HasPrice(s, b.Of(s), price) { assert b.Of(s)[k] in b.Of(s); }
  }

  /** If only one level holds the ID, then cancelling is the linear removal from that level. */
  lemma CancelIsThere(b: Book, id: nat, s: Side, k: nat)
    requires BookOk(b) && k < |b.Of(s)| && HasId(b.Of(s)[k].queue, id)
    requires forall t: Side, j :: 0 <= j < |b.Of(t)| && HasId(b.Of(t)[j].queue, id) ==> t == s && j == k
    ensures BookOk(Cancel(b, id))
    ensures var v, price := RemoveFromLevel(b.Of(s)[k], id), b.Of(s)[k].price;
      var ls := b.Of(s)[k := v];
      && (v.queue != [] ==> Cancel(b, id) == b.With(s, ls))
      && (v.queue == [] ==> Droppable(s, ls, price) && b.With(s, ls).Of(s) == ls)
      && (v.queue == [] ==> Cancel(b, id) == b.With(s, ls).With(s, DropPrice(s, ls, price)))
  {
    hide *;
    var was := b.Of(s);
    var v := RemoveFromLevel(was[k], id);
    SidesAreOk(b, s);
    OnlyOneSide(b, id, s, k);
    CancelAt(was, id, k);
    CancelKeeps(was, id, s, Remain);
    WithIsOk(b, s, CancelIn(was, id));
    SamePrice(was[k], id);
    SidePlace(s, was, k, v);
    WithOf(b, s, was[k := v]);
    WithTwice(b, s, was[k := v], DropPrice(s, was[k := v], v.price));
    Around(was, k, v);
    WithoutMiddle(was[..k], was[k + 1..]);
  }

  lemma SidesAreOk(b: Book, s: Side)
    requires BookOk(b)
    ensures SideOk(b.Of(s), s) && Sorted(Desc(s), Prices(b.Of(s)))
  {
  }

  lemma WithIsOk(b: Book, s: Side, ls: seq<Level>)
    requires BookOk(b) && SideOk(ls, s)
    ensures BookOk(b.With(s, ls))
  {
  }

  lemma WithTwice(b: Book, s: Side, ls: seq<Level>, ms: seq<Level>)
    ensures b.With(s, ls).With(s, ms) == b.With(s, ms)
  {
  }

  lemma SamePrice(l: Level, id: nat)
    ensures RemoveFromLevel(l, id).price == l.price
  {
  }

  lemma WhereId(q: seq<Ord>, id: nat) returns (m: nat)
    requires HasId(q, id)
    ensures m < |q| && q[m].id == id
  {
    var o :| o in q && o.id == id;
    m :| 0 <= m < |q| && q[m] == o;
  }

  lemma NobodyHas(ls: seq<Level>, id: nat)
    requires forall j, m :: 0 <= j < |ls| && 0 <= m < |ls[j].queue| ==> ls[j].queue[m].id != id
    ensures !SideHas(ls, id)
  {
  }

  lemma OnlyOneSide(b: Book, id: nat, s: Side, k: nat)
    requires k < |b.Of(s)| && HasId(b.Of(s)[k].queue, id)
    requires forall t: Side, j :: 0 <= j < |b.Of(t)| && HasId(b.Of(t)[j].queue, id) ==> t == s && j == k
    ensures SideHas(b.Of(s), id) && !SideHas(b.Of(s.Opposite()), id)
    ensures Cancel(b, id) == b.With(s, CancelIn(b.Of(s), id))
  {
    hide HasId;
    assert b.Of(s)[k] in b.Of(s);
    assert !SideHas(b.Of(s.Opposite()), id);
  }

  /** In a sorted side the level at k is where a look-up of its price leads, also after its queue has changed. */
  lemma SidePlace(s: Side, ls: seq<Level>, k: nat, v: Level)
    requires Sorted(Desc(s), Prices(ls)) && k < |ls| && v.price == ls[k].price
    ensures HasPrice(s, ls[k := v], v.price) && (Droppable(s, ls[k := v], v.price) <==> v.queue == [])
    ensures DropPrice(s, ls[k := v], v.price) == ls[k := v][..k] + ls[k := v][k + 1..]
  {
    assert Prices(ls[k := v]) == Prices(ls);
    RankIsUnique(Desc(s), Prices(ls), v.price, k);
  }

  lemma PutNew(desc: bool, es: seq<Entry>, price: real, level: PriceLevel)
    requires !Found(desc, es, price)
    ensures var k := Rank(desc, Keys(es), price);
      k <= |es| && Put(desc, es, price, level) == es[..k] + [Entry(price, level)] + es[k..]
  {
  }

  lemma OpenedNew(s: Side, ls: seq<Level>, price: real)
    requires !HasPrice(s, ls, price)
    ensures var k := PlaceOf(s, ls, price);
      k <= |ls| && Opened(s, ls, price) == ls[..k] + [Level(price, [], 0.0)] + ls[k..]
  {
  }

  lemma EitherSide(s: Side, t: Side)
    ensures t == s || t == s.Opposite()
  {
  }

  lemma WithOf(b: Book, s: Side, ls: seq<Level>)
    ensures b.With(s, ls).Of(s) == ls && b.With(s, ls).Of(s.Opposite()) == b.Of(s.Opposite())
  {
  }

  lemma WithoutOne(es: seq<Entry>, k: nat)
    requires k < |es|
    ensures forall y <- es :: y == es[k] || y in es[..k] + es[k + 1..]
    ensures forall y <- es[..k] + es[k + 1..] :: y in es
  {
    forall y | y in es
      ensures y == es[k] || y in es[..k] + es[k + 1..]
    {
      var i :| 0 <= i < |es| && es[i] == y;
      assert i < k ==> es[..k][i] == y;
      assert i > k ==> es[k + 1..][i - k - 1] == y;
    }
  }

  lemma WithOneMore(es: seq<Entry>, k: nat, en: Entry)
    requires k <= |es|
    ensures forall y <- es :: y in es[..k] + [en] + es[k..]
    ensures forall y <- es[..k] + [en] + es[k..] :: y == en || y in es
  {
    forall y | y in es
      ensures y in es[..k] + [en] + es[k..]
    {
      var i :| 0 <= i < |es| && es[i] == y;
      assert i < k ==> es[..k][i] == y;
      assert i >= k ==> es[k..][i - k] == y;
    }
  }

  /** A side in which a price has its level, be it an empty one. */
  function Opened(s: Side, ls: seq<Level>, price: real): seq<Level> {
    var k := PlaceOf(s, ls, price);
    if HasPrice(s, ls, price) then ls else ls[..k] + [Level(price, [], 0.0)] + ls[k..]
  }
}
