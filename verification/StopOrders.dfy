/** Parked stop orders, grouped by trigger price: a map from prices to orders, and a list of the prices that an
    insertion sort keeps in order. */
module StopOrders {
  import opened SortedKeys

  class StopOrder {
    const ID: nat
    const StopPrice: real
    var Triggered: bool

    constructor (id: nat, stopPrice: real)
      ensures ID == id && StopPrice == stopPrice && !Triggered
    {
      ID, StopPrice, Triggered := id, stopPrice, false;
    }
  }

  type Group = map<nat, StopOrder>

  function GroupAt(orders: map<real, Group>, price: real): Group { if price in orders then orders[price] else map[] }

  lemma FiledAt(orders: map<real, Group>, price: real)
    requires AllOk(orders)
    ensures Filed(price, GroupAt(orders, price))
  {
  }

  function Joined(g: Group, o: StopOrder): Group {
    var id: nat := o.ID;
    g[id := o]
  }

  predicate GroupOk(p: real, g: Group) { g != map[] && Filed(p, g) }

  predicate Filed(p: real, g: Group) { forall id <- g :: g[id].StopPrice == p && g[id].ID == id }

  lemma JoinedIsOk(p: real, g: Group, o: StopOrder)
    requires Filed(p, g) && o.StopPrice == p
    ensures GroupOk(p, Joined(g, o))
  {
    assert o.ID in Joined(g, o);
  }

  /** In the tree's order, or equal. */
  predicate InOrder(asc: bool, a: real, b: real) { if asc then a <= b else a >= b }

  ghost predicate Ordered(asc: bool, ps: seq<real>) {
    forall i, j :: 0 <= i < j < |ps| ==> InOrder(asc, ps[i], ps[j])
  }

  /** The first n prices are in order, but for the one at j, which still has to move down. */
  ghost predicate OrderedBut(asc: bool, ps: seq<real>, n: nat, j: nat) {
    && n <= |ps| && (forall a, b :: 0 <= a < b < n && a != j && b != j ==> InOrder(asc, ps[a], ps[b]))
    && (forall b :: j < b < n ==> InOrder(asc, ps[j], ps[b]))
  }

  function Swapped(ps: seq<real>, j: nat): seq<real>
    requires 0 < j < |ps|
  {
    ps[j := ps[j - 1]][j - 1 := ps[j]]
  }

  lemma SwapKeeps(asc: bool, ps: seq<real>, n: nat, j: nat)
    requires OrderedBut(asc, ps, n, j) && 0 < j < n && !InOrder(asc, ps[j - 1], ps[j])
    ensures OrderedBut(asc, Swapped(ps, j), n, j - 1) && multiset(Swapped(ps, j)) == multiset(ps)
  {
  }

  lemma FewAreOrdered(asc: bool, ps: seq<real>)
    ensures (|ps| > 0 ==> Ordered(asc, ps[..1])) && (|ps| == 0 ==> Ordered(asc, ps))
  {
  }

  lemma StartsMoving(asc: bool, ps: seq<real>, i: nat)
    requires i < |ps| && Ordered(asc, ps[..i])
    ensures OrderedBut(asc, ps, i + 1, i)
  {
    forall a, b | 0 <= a < b < i
      ensures InOrder(asc, ps[a], ps[b])
    {
      assert InOrder(asc, ps[..i][a], ps[..i][b]);
    }
  }

  lemma SwapsWhenWrong(asc: bool, before: real, at: real)
    ensures InOrder(asc, before, at) <==> !(asc && at < before) && !(!asc && at > before)
  {
  }

  lemma SwappedIs(ps: seq<real>, j: nat)
    requires 0 < j < |ps|
    ensures Swapped(ps, j) == ps[j := ps[j - 1]][j - 1 := ps[j]]
  {
  }

  lemma NothingToSwap(asc: bool, ps: seq<real>, n: nat, j: nat)
    requires OrderedBut(asc, ps, n, j) && j < n && (j > 0 ==> InOrder(asc, ps[j - 1], ps[j]))
    ensures Ordered(asc, ps[..n])
  {
    forall a, b | 0 <= a < b < n
      ensures InOrder(asc, ps[a], ps[b])
    {
      if b == j && a < j - 1 { assert InOrder(asc, ps[a], ps[j - 1]); }
    }
  }

  // ------------------------------------------------------------------ what a trigger price takes out

  /** How many leading prices are not above a price. */
  function Leading(ps: seq<real>, price: real): (k: nat)
    ensures k <= |ps| && (forall i :: 0 <= i < k ==> ps[i] <= price) && (k < |ps| ==> ps[k] > price)
  {
    if ps == [] || ps[0] > price then 0 else 1 + Leading(ps[1..], price)
  }

  /** How many orders stand at these prices. */
  function Count(orders: map<real, Group>, ps: seq<real>): nat {
    if ps == [] then 0 else |GroupAt(orders, ps[0])| + Count(orders, ps[1..])
  }

  /** Is o filed under one of these prices? */
  predicate Stands(o: StopOrder, orders: map<real, Group>, ps: seq<real>) {
    o.StopPrice in ps && o.StopPrice in orders && o in orders[o.StopPrice].Values
  }

  ghost predicate Extracted(result: seq<StopOrder>, orders: map<real, Group>, ps: seq<real>) {
    && (forall o <- result :: Stands(o, orders, ps)) && |result| == Count(orders, ps)
    && (forall p, id :: p in ps && id in GroupAt(orders, p) ==> GroupAt(orders, p)[id] in result)
    && (forall i, j :: 0 <= i < j < |result| ==> result[i] != result[j])
  }

  lemma {:induction false} CountOneMore(orders: map<real, Group>, ps: seq<real>, p: real)
    ensures Count(orders, ps + [p]) == Count(orders, ps) + |GroupAt(orders, p)|
  {
    if ps == [] {
      assert Count(orders, [p]) == |GroupAt(orders, p)| + Count(orders, []);
    } else {
      assert (ps + [p])[1..] == ps[1..] + [p];
      CountOneMore(orders, ps[1..], p);
    }
  }

  /** All orders of a group, each once. */
  ghost predicate Whole(taken: seq<StopOrder>, g: Group) {
    && |taken| == |g| && (forall o <- taken :: o in g.Values) && (forall o <- g.Values :: o in taken)
    && forall i, j :: 0 <= i < j < |taken| ==> taken[i] != taken[j]
  }

  lemma NothingRises()
    ensures Rising([])
  {
  }

  /** The lowest prices come first. */
  ghost predicate Rising(result: seq<StopOrder>) {
    forall i, j :: 0 <= i < j < |result| ==> result[i].StopPrice <= result[j].StopPrice
  }

  lemma RisesOn(result: seq<StopOrder>, taken: seq<StopOrder>, orders: map<real, Group>, ps: seq<real>, i: nat)
    requires Rising(result) && i < |ps| && Sorted(false, ps) && Extracted(result, orders, ps[..i])
    requires ps[i] in orders && Filed(ps[i], orders[ps[i]]) && Whole(taken, orders[ps[i]])
    ensures Rising(result + taken)
  {
    hide Count;
    forall o | o in result
      ensures o.StopPrice <= ps[i]
    {
      assert Stands(o, orders, ps[..i]);
      var k :| 0 <= k < i && ps[k] == o.StopPrice;
      assert Before(false, ps[k], ps[i]);
    }
    forall o | o in taken
      ensures o.StopPrice == ps[i]
    {
      assert o in orders[ps[i]].Values;
    }
    var all := result + taken;
    forall a, b | 0 <= a < b < |all|
      ensures all[a].StopPrice <= all[b].StopPrice
    {
      assert all[a] in result || all[a] in taken;
      assert b >= |result| ==> all[b] in taken;
    }
  }

  lemma OneMoreGroup(result: seq<StopOrder>, taken: seq<StopOrder>, orders: map<real, Group>, ps: seq<real>, p: real)
    requires Extracted(result, orders, ps) && p !in ps && p in orders && Filed(p, orders[p])
    requires Whole(taken, orders[p])
    ensures Extracted(result + taken, orders, ps + [p])
  {
    CountOneMore(orders, ps, p);
    hide Count;
    var all := result + taken;
    forall o | o in taken
      ensures o.StopPrice == p
    {
      assert o in orders[p].Values;
    }
    forall i, j | 0 <= i < j < |all|
      ensures all[i] != all[j]
    {
      if i < |result| <= j { assert all[i] in result && all[j] in taken; }
    }
    forall o | o in all
      ensures Stands(o, orders, ps + [p])
    {
      assert o in result || o in taken;
    }
    forall q, id | q in ps + [p] && id in GroupAt(orders, q)
      ensures GroupAt(orders, q)[id] in all
    {
      assert q in ps || q == p;
    }
  }

  ghost function Marks(all: set<StopOrder>): map<StopOrder, bool>
    reads all
  {
    map o | o in all :: o.Triggered
  }

  /** The orders in result are marked as triggered; all others are as they were. */
  ghost predicate Marked(mark: map<StopOrder, bool>, result: seq<StopOrder>)
    reads mark.Keys
  {
    forall o <- mark :: o.Triggered == (mark[o] || o in result)
  }

  lemma MarksAre(all: set<StopOrder>)
    ensures Marked(Marks(all), []) && Marks(all).Keys == all && forall o <- all :: Marks(all)[o] == o.Triggered
  {
  }

  lemma MarkedIs(mark: map<StopOrder, bool>, result: seq<StopOrder>)
    requires Marked(mark, result)
    ensures forall o <- mark :: o.Triggered == (mark[o] || o in result)
  {
  }

  twostate lemma MarkedMore(at: (map<StopOrder, bool>, seq<StopOrder>), new taken: seq<StopOrder>, new g: Group)
    requires old(Marked(at.0, at.1)) && Whole(taken, g) && (forall o <- taken :: o.Triggered)
    requires forall o <- at.0 :: o !in g.Values ==> unchanged(o)
    ensures Marked(at.0, at.1 + taken)
  {
  }

  /** The orders of a group, marked as triggered, in whatever order the map yields them. */
  method TakeGroup(price: real, g: Group) returns (taken: seq<StopOrder>)
    requires Filed(price, g)
    modifies g.Values
    ensures Whole(taken, g) && forall o <- taken :: o.Triggered && o.StopPrice == price
  {
    taken := [];
    var rest := g.Keys;
    while rest != {}
      invariant rest <= g.Keys && |taken| == |g.Keys| - |rest|
      invariant forall o <- taken :: o.ID in g && o.ID !in rest && g[o.ID] == o && o.Triggered
      invariant forall id <- g :: id !in rest ==> g[id] in taken
      invariant forall i, j :: 0 <= i < j < |taken| ==> taken[i] != taken[j]
    {
      var id :| id in rest;
      var order := g[id];
      order.Triggered := true;
      taken := taken + [order];
      rest := rest - {id};
    }
  }

  /** Every one of these prices has exactly one order. */
  predicate Singles(orders: map<real, Group>, ps: seq<real>) { forall p <- ps :: |GroupAt(orders, p)| == 1 }

  lemma {:induction false} CountIsLength(orders: map<real, Group>, ps: seq<real>)
    requires AllOk(orders) && forall p <- ps :: p in orders
    ensures Count(orders, ps) >= |ps| && (Count(orders, ps) == |ps| <==> Singles(orders, ps))
  {
    if ps != [] {
      var p := ps[0];
      assert p in ps && p in orders && GroupOk(p, orders[p]);
      assert |orders[p]| > 0 by {
        var id :| id in orders[p];
        assert id in orders[p].Keys;
      }
      CountIsLength(orders, ps[1..]);
      assert forall q <- ps :: q == p || q in ps[1..];
    }
  }

  lemma GroupHere(asc: bool, ps: seq<real>, orders: map<real, Group>, j: nat)
    requires Sorted(!asc, ps) && (forall p :: p in ps <==> p in orders) && AllOk(orders) && j < |ps|
    ensures ps[j] in orders && Filed(ps[j], orders[ps[j]]) && ps[j] !in ps[..j]
  {
    assert ps[j] in ps && GroupOk(ps[j], orders[ps[j]]);
  }

  lemma LeadingIs(ps: seq<real>, price: real, i: nat)
    requires i <= |ps| && (forall j :: 0 <= j < i ==> ps[j] <= price) && (i < |ps| ==> ps[i] > price)
    ensures Leading(ps, price) == i
  {
  }

  /** The groups without those of some prices. */
  function Cut(orders: map<real, Group>, ps: seq<real>): map<real, Group> { orders - (set p | p in ps) }

  lemma CutOneMore(orders: map<real, Group>, ps: seq<real>, p: real)
    ensures Cut(orders, ps + [p]) == Cut(orders, ps) - {p}
    ensures p in orders && p !in ps ==> p in Cut(orders, ps) && Cut(orders, ps)[p] == orders[p]
    ensures Cut(orders, []) == orders
  {
    assert (set q | q in ps + [p]) == (set q | q in ps) + {p};
  }

  /** All orders there are. */
  ghost function Members(orders: map<real, Group>): set<StopOrder> {
    set p, id | p in orders && id in orders[p] :: orders[p][id]
  }

  lemma MembersHas(orders: map<real, Group>, p: real)
    ensures p in orders ==> orders[p].Values <= Members(orders)
  {
  }

  lemma KnownPrices(ps: seq<real>, orders: map<real, Group>, k: nat)
    requires (forall p :: p in ps <==> p in orders) && k <= |ps|
    ensures forall p <- ps[..k] :: p in orders
  {
  }

  lemma ExtractedCount(result: seq<StopOrder>, orders: map<real, Group>, ps: seq<real>)
    requires Extracted(result, orders, ps)
    ensures |result| == Count(orders, ps) && (ps == [] ==> |result| == 0)
  {
  }

  /** Taking out k prices and then shortening the list by n of them is right exactly if n is k. */
  lemma RemovalIsRight(asc: bool, ps: seq<real>, orders: map<real, Group>, k: nat, n: nat)
    requires Sorted(!asc, ps) && (forall p :: p in ps <==> p in orders) && AllOk(orders) && k <= |ps| && n >= k
    requires k == 0 ==> n == 0
    ensures var left, rest := Cut(orders, ps[..k]), if n > |ps| then ps else ps[n..];
      n == k <==> Sorted(!asc, rest) && (forall p :: p in rest <==> p in left) && AllOk(left)
  {
    hide GroupOk, Cut, Sorted;
    if n > |ps| {
      OutOfPlace(asc, ps, orders, k, 0);
      assert ps[0] in ps;
    } else if n > k {
      OutOfPlace(asc, ps, orders, k, k);
      assert forall p <- ps[n..] :: p != ps[k];
    } else {
      CutIsRight(asc, ps, orders, k);
    }
  }

  lemma CutIsRight(asc: bool, ps: seq<real>, orders: map<real, Group>, k: nat)
    requires Sorted(!asc, ps) && (forall p :: p in ps <==> p in orders) && AllOk(orders) && k <= |ps|
    ensures Sorted(!asc, ps[k..]) && (forall p :: p in ps[k..] <==> p in Cut(orders, ps[..k]))
    ensures AllOk(Cut(orders, ps[..k]))
  {
    hide GroupOk;
    forall p | p in ps
      ensures p in ps[k..] <==> p in Cut(orders, ps[..k])
    {
      var j :| 0 <= j < |ps| && ps[j] == p;
      OutOfPlace(asc, ps, orders, k, j);
      if j >= k { assert ps[k..][j - k] == p; }
    }
    assert forall p <- ps[k..] :: p in ps;
  }

  /** What is left of the map after k prices are gone. */
  lemma OutOfPlace(asc: bool, ps: seq<real>, orders: map<real, Group>, k: nat, j: nat)
    requires Sorted(!asc, ps) && (forall p :: p in ps <==> p in orders) && k <= |ps| && j < |ps|
    ensures ps[j] in Cut(orders, ps[..k]) <==> j >= k
    ensures (forall i :: 0 <= i < |ps| && i != j ==> ps[i] != ps[j]) && (j < k ==> ps[j] !in ps[k..])
  {
    forall i | 0 <= i < |ps| && i != j
      ensures ps[i] != ps[j]
    {
      assert if i < j then Before(!asc, ps[i], ps[j]) else Before(!asc, ps[j], ps[i]);
    }
    hide Sorted;
    assert ps[j] in ps;
    if j < k {
      assert ps[..k][j] == ps[j];
      assert forall p <- ps[k..] :: p != ps[j];
    } else {
      assert forall p <- ps[..k] :: p != ps[j];
    }
  }

  lemma NothingExtracted(orders: map<real, Group>)
    ensures Extracted([], orders, [])
  {
  }

  class StopOrderTree {
    var orders: map<real, Group>
    var prices: seq<real>
    const asc: bool

    /** The list of prices is sorted and lists exactly the prices that have orders; orders stand under their own price
        and ID. */
    ghost predicate Valid()
      reads this
    {
      && Sorted(!asc, prices) && (forall p :: p in prices <==> p in orders)
      && AllOk(orders)
    }

    constructor (asc: bool)
      ensures Valid() && orders == map[] && this.asc == asc
    {
      orders, prices, this.asc := map[], [], asc;
    }

    /** Insertion sort. */
    method SortPrices()
      modifies this`prices
      ensures Ordered(asc, prices) && multiset(prices) == multiset(old(prices))
    {
      hide *;
      FewAreOrdered(asc, prices);
      for i := 1 to if |prices| == 0 then 1 else |prices|
        invariant |prices| == |old(prices)| && multiset(prices) == multiset(old(prices))
        invariant i <= |prices| || |prices| == 0
        invariant i <= |prices| ==> Ordered(asc, prices[..i])
      {
        MoveDown(i);
      }
      assert prices[..|prices|] == prices;
    }

    /** The price at i moves down to its place among the sorted ones before it. */
    method MoveDown(i: nat)
      requires i < |prices| && Ordered(asc, prices[..i])
      modifies this`prices
      ensures |prices| == |old(prices)| && Ordered(asc, prices[..i + 1]) && multiset(prices) == multiset(old(prices))
    {
      hide *;
      StartsMoving(asc, prices, i);
      ghost var all := multiset(prices);
      var j := i;
      while j > 0
        invariant 0 <= j <= i < |prices| == |old(prices)| && multiset(prices) == all
        invariant OrderedBut(asc, prices, i + 1, j)
      {
        var shouldSwap := false;
        if asc && prices[j] < prices[j - 1] {
          shouldSwap := true;
        } else if !asc && prices[j] > prices[j - 1] {
          shouldSwap := true;
        }
        SwapsWhenWrong(asc, prices[j - 1], prices[j]);
        if !shouldSwap {
          break;
        }
        SwapDown(i + 1, j);
        j := j - 1;
      }
      NothingToSwap(asc, prices, i + 1, j);
    }

    method SwapDown(ghost n: nat, j: nat)
      requires OrderedBut(asc, prices, n, j) && 0 < j < n <= |prices| && !InOrder(asc, prices[j - 1], prices[j])
      modifies this`prices
      ensures OrderedBut(asc, prices, n, j - 1) && multiset(prices) == multiset(old(prices))
      ensures |prices| == |old(prices)|
    {
      hide *;
      SwapKeeps(asc, prices, n, j);
      SwappedIs(prices, j);
      prices := prices[j := prices[j - 1]][j - 1 := prices[j]];
    }

    /** The price gets its place in the list. */
    method AddPrice(price: real)
      requires Sorted(!asc, prices) && price !in prices
      modifies this`prices
      ensures Sorted(!asc, prices) && forall p :: p in prices <==> p in old(prices) || p == price
    {
      hide Sorted, Ordered;
      prices := prices + [price];
      SortPrices();
      SortedAgain(asc, old(prices), price, prices);
    }

    /** An order with a known ID replaces the old one. */
    method Insert(price: real, order: StopOrder)
      requires Valid() && order.StopPrice == price
      modifies this
      ensures Valid()
      ensures orders == old(orders)[price := Joined(GroupAt(old(orders), price), order)]
      ensures var id: nat := order.ID; GroupAt(orders, price) == GroupAt(old(orders), price)[id := order]
      ensures forall p :: p != price ==> GroupAt(orders, p) == GroupAt(old(orders), p)
    {
      JoinedIs(orders, price, order);
      hide Sorted, GroupOk, Joined;
      FiledAt(orders, price);
      JoinedIsOk(price, GroupAt(orders, price), order);
      if price !in orders {
        orders := orders[price := map[]];
        AddPrice(price);
      }
      orders := orders[price := Joined(orders[price], order)];
    }

    /** The price loses its place in the list. */
    method RemovePrice(price: real)
      requires Sorted(!asc, prices)
      modifies this`prices
      ensures Sorted(!asc, prices) && forall p :: p in prices <==> p in old(prices) && p != price
    {
      hide Sorted;
      for i := 0 to |prices|
        invariant prices == old(prices) && forall j :: 0 <= j < i ==> prices[j] != price
      {
        if prices[i] == price {
          prices := prices[..i] + prices[i + 1..];
          WithoutPrice(!asc, old(prices), i, prices);
          return;
        }
      }
    }

    method Delete(price: real, orderID: nat)
      requires Valid()
      modifies this
      ensures Valid()
      ensures orders == Forget(old(orders), price, orderID)
      ensures GroupAt(orders, price) == GroupAt(old(orders), price) - {orderID}
      ensures forall p :: p != price ==> GroupAt(orders, p) == GroupAt(old(orders), p)
    {
      hide *;
      Parts();
      ForgetIs(orders, price, orderID);
      ForgetCases(orders, price, orderID);
      if price in orders {
        StaysFiled(orders, price, orderID);
        orders := orders[price := orders[price] - {orderID}];
        if |orders[price]| == 0 {
          orders := orders - {price};
          RemovePrice(price);
        }
      }
      Parts();
    }

    /** Takes one group out of the map. */
    method TakePrice(p: real, ghost mark: map<StopOrder, bool>, ghost result: seq<StopOrder>)
      returns (taken: seq<StopOrder>)
      requires p in orders && Filed(p, orders[p]) && Marked(mark, result)
      modifies this`orders, orders[p].Values
      ensures Whole(taken, old(orders)[p]) && orders == old(orders) - {p} && Marked(mark, result + taken)
    {
      hide *;
      taken := TakeGroup(p, orders[p]);
      MarkedMore((mark, result), taken, orders[p]);
      orders := orders - {p};
    }

    /** Takes the groups at or below a price out of the map. */
    method TakeBelow(price: real) returns (result: seq<StopOrder>)
      requires Valid() && asc
      modifies this`orders, Members(orders)
      ensures var gone := prices[..Leading(prices, price)];
        && Extracted(result, old(orders), gone) && orders == Cut(old(orders), gone) && Rising(result)
      ensures forall o <- Members(old(orders)) :: o.Triggered == (old(o.Triggered) || o in result)
    {
      ghost var ps, was, mark := prices, orders, Marks(Members(orders));
      MarksAre(Members(orders));
      hide *;
      Parts();
      result := [];
      var i := 0;
      NothingExtracted(orders);
      NothingRises();
      CutOneMore(was, [], 0.0);
      while i < |prices|
        invariant 0 <= i <= |ps| && orders == Cut(was, ps[..i])
        invariant Extracted(result, was, ps[..i]) && Rising(result)
        invariant Marked(mark, result)
        invariant forall j :: 0 <= j < i ==> ps[j] <= price
      {
        var p := prices[i];
        if p <= price {
          GroupHere(asc, ps, was, i);
          MembersHas(was, p);
          CutOneMore(was, ps[..i], p);
          var taken := TakePrice(p, mark, result);
          RisesOn(result, taken, was, ps, i);
          OneMoreGroup(result, taken, was, ps[..i], p);
          result := result + taken;
          assert ps[..i + 1] == ps[..i] + [p];
        } else {
          break;
        }
        i := i + 1;
      }
      LeadingIs(ps, price, i);
      MarkedIs(mark, result);
    }

    /** Takes out all orders that stand at or below a price. The list of prices is then shortened by the number of
        orders, not of prices: if it has fewer elements than that the program panics, and the tree stays valid if and
        only if every price that was taken out had exactly one order. */
    method GetOrdersBelowPrice(price: real) returns (result: seq<StopOrder>, panics: bool)
      requires Valid() && asc
      modifies this, Members(orders)
      ensures var gone := old(prices)[..Leading(old(prices), price)];
        && Extracted(result, old(orders), gone) && orders == Cut(old(orders), gone) && Rising(result)
      ensures forall p :: GroupAt(orders, p) == if p <= price then map[] else GroupAt(old(orders), p)
      ensures forall p, id :: p <= price && id in GroupAt(old(orders), p) ==> GroupAt(old(orders), p)[id] in result
      ensures forall o <- result :: o.StopPrice <= price && IsAt(o, old(orders))
      ensures forall i, j :: 0 <= i < j < |result| ==> result[i] != result[j]
      ensures forall o <- Members(old(orders)) :: o.Triggered == (old(o.Triggered) || o in result)
      ensures Valid() <==> forall p :: p <= price ==> |GroupAt(old(orders), p)| <= 1
      ensures panics <==> |result| > |old(prices)|
      ensures prices == if panics then old(prices) else old(prices)[|result|..]
      ensures Valid() <==> Singles(old(orders), old(prices)[..Leading(old(prices), price)])
    {
      hide *;
      ghost var ps, was, k := prices, orders, Leading(prices, price);
      Parts();
      KnownPrices(ps, was, k);
      result := TakeBelow(price);
      ExtractedCount(result, was, ps[..k]);
      CountIsLength(was, ps[..k]);
      RemovalIsRight(asc, ps, was, k, |result|);
      TakenIs(ps, was, price, result);
      panics := |result| > |prices|;
      if !panics {
        prices := prices[|result|..];
      }
      Parts();
    }

    lemma Parts()
      ensures Valid() <==> Sorted(!asc, prices) && (forall p :: p in prices <==> p in orders) && AllOk(orders)
    {
    }
  }

  /** An order stands under its own ID in the group of its own price. */
  predicate IsAt(o: StopOrder, orders: map<real, Group>) {
    var id: nat := o.ID;
    id in GroupAt(orders, o.StopPrice) && GroupAt(orders, o.StopPrice)[id] == o
  }

  lemma JoinedIs(orders: map<real, Group>, price: real, o: StopOrder)
    ensures var id: nat := o.ID;
      var now := orders[price := Joined(GroupAt(orders, price), o)];
      && GroupAt(now, price) == GroupAt(orders, price)[id := o]
      && forall p :: p != price ==> GroupAt(now, p) == GroupAt(orders, p)
  {
  }

  lemma ForgetIs(orders: map<real, Group>, price: real, id: nat)
    ensures var now := Forget(orders, price, id);
      && GroupAt(now, price) == GroupAt(orders, price) - {id}
      && forall p :: p != price ==> GroupAt(now, p) == GroupAt(orders, p)
  {
    var none: Group := map[];
    assert none - {id} == none;
  }

  /** What taking out the leading prices comes to, price by price. */
  lemma TakenIs(ps: seq<real>, orders: map<real, Group>, price: real, result: seq<StopOrder>)
    requires Sorted(false, ps) && (forall p :: p in ps <==> p in orders) && AllOk(orders)
    requires Extracted(result, orders, ps[..Leading(ps, price)])
    ensures var now := Cut(orders, ps[..Leading(ps, price)]);
      forall p :: GroupAt(now, p) == if p <= price then map[] else GroupAt(orders, p)
    ensures forall p, id :: p <= price && id in GroupAt(orders, p) ==> GroupAt(orders, p)[id] in result
    ensures forall o <- result :: o.StopPrice <= price && IsAt(o, orders)
    ensures forall i, j :: 0 <= i < j < |result| ==> result[i] != result[j]
    ensures Singles(orders, ps[..Leading(ps, price)]) <==> forall p :: p <= price ==> |GroupAt(orders, p)| <= 1
  {
    LeadingAre(ps, price);
    var gone := ps[..Leading(ps, price)];
    hide Sorted, Leading;
    forall o | o in result
      ensures o.StopPrice <= price && IsAt(o, orders)
    {
      assert Stands(o, orders, gone) && GroupOk(o.StopPrice, orders[o.StopPrice]);
    }
    GroupSizes(orders);
  }

  lemma GroupSizes(orders: map<real, Group>)
    requires AllOk(orders)
    ensures forall p :: |GroupAt(orders, p)| <= 1 <==> p !in orders || |GroupAt(orders, p)| == 1
  {
    forall p | p in orders
      ensures |GroupAt(orders, p)| > 0
    {
      assert GroupOk(p, orders[p]);
      var id :| id in orders[p];
      assert id in orders[p].Keys;
    }
  }

  lemma LeadingAre(ps: seq<real>, price: real)
    requires Sorted(false, ps)
    ensures forall p :: p in ps[..Leading(ps, price)] <==> p in ps && p <= price
  {
    var k := Leading(ps, price);
    assert forall i :: k < i < |ps| ==> Before(false, ps[k], ps[i]);
    forall p | p in ps && p <= price
      ensures p in ps[..k]
    {
      var i :| 0 <= i < |ps| && ps[i] == p;
      assert i < k;
    }
  }

  ghost predicate AllOk(orders: map<real, Group>) { forall p <- orders :: GroupOk(p, orders[p]) }

  lemma ForgetCases(orders: map<real, Group>, price: real, id: nat)
    ensures price !in orders ==> Forget(orders, price, id) == orders
    ensures price in orders ==> var g := orders[price] - {id};
      Forget(orders, price, id) == if |g| == 0 then orders - {price} else orders[price := g]
    ensures AllOk(orders) ==> AllOk(Forget(orders, price, id))
  {
    if price in orders && AllOk(orders) { StaysFiled(orders, price, id); }
    hide GroupOk;
  }

  lemma StaysFiled(orders: map<real, Group>, price: real, id: nat)
    requires price in orders && AllOk(orders)
    ensures var g := orders[price] - {id}; (|g| == 0 <==> g == map[]) && (g != map[] ==> GroupOk(price, g))
    ensures orders[price := orders[price] - {id}] - {price} == orders - {price}
  {
  }

  /** The groups without one order, and without the group that this leaves empty. */
  function Forget(orders: map<real, Group>, price: real, id: nat): map<real, Group> {
    if price !in orders then orders
    else
      var g := orders[price] - {id};
      if g == map[] then orders - {price} else orders[price := g]
  }

  lemma DistinctPrices(desc: bool, ps: seq<real>)
    requires Sorted(desc, ps)
    ensures forall p <- ps :: multiset(ps)[p] == 1
  {
    forall p | p in ps
      ensures multiset(ps)[p] == 1
    {
      var i :| 0 <= i < |ps| && ps[i] == p;
      assert ps == ps[..i] + [p] + ps[i + 1..];
      assert p !in ps[..i] && p !in ps[i + 1..];
    }
  }

  lemma EqualCountTwice(ps: seq<real>, i: nat, j: nat)
    requires i < j < |ps|
    ensures ps[i] == ps[j] ==> multiset(ps)[ps[i]] >= 2
  {
    assert ps == ps[..i] + [ps[i]] + ps[i + 1..j] + [ps[j]] + ps[j + 1..];
  }

  /** Sorting a list of distinct prices and a new one. */
  lemma SortedAgain(asc: bool, was: seq<real>, price: real, ps: seq<real>)
    requires Sorted(!asc, was) && price !in was && Ordered(asc, ps) && multiset(ps) == multiset(was + [price])
    ensures Sorted(!asc, ps) && forall p :: p in ps <==> p in was || p == price
  {
    DistinctPrices(!asc, was);
    hide Sorted;
    assert forall p :: p in multiset(ps) <==> p in ps;
    assert multiset(was + [price]) == multiset(was) + multiset{price};
    forall i, j | 0 <= i < j < |ps|
      ensures ps[i] != ps[j]
    {
      EqualCountTwice(ps, i, j);
    }
    StrictlySorted(asc, ps);
  }

  lemma StrictlySorted(asc: bool, ps: seq<real>)
    requires Ordered(asc, ps) && forall i, j :: 0 <= i < j < |ps| ==> ps[i] != ps[j]
    ensures Sorted(!asc, ps)
  {
  }

  lemma WithoutPrice(desc: bool, ps: seq<real>, i: nat, qs: seq<real>)
    requires Sorted(desc, ps) && i < |ps| && qs == ps[..i] + ps[i + 1..]
    ensures Sorted(desc, qs) && forall p :: p in qs <==> p in ps && p != ps[i]
  {
    forall p | p in ps && p != ps[i]
      ensures p in qs
    {
      var j :| 0 <= j < |ps| && ps[j] == p;
      assert qs[if j < i then j else j - 1] == p;
    }
  }
}
