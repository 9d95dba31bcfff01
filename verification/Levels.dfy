/** Price levels as the program holds them: a doubly linked list of orders, whose elements have an identity of their
    own, and a running total. */
module Levels {
  import opened Models
  import opened BookSpec
  import opened MatchLaws
  import opened LimitLaws

  class Element {
    const order: Order

    constructor (order: Order)
      ensures this.order == order
    {
      this.order := order;
    }
  }

  /** The orders that a list of elements holds, as values. */
  function Queue(es: seq<Element>): (q: seq<Ord>)
    reads set e | e in es :: e.order
    ensures |q| == |es| && forall i :: 0 <= i < |es| ==> q[i] == es[i].order.View()
  {
    if es == [] then [] else [es[0].order.View()] + Queue(es[1..])
  }

  twostate lemma SameQueue(es: seq<Element>)
    requires forall e <- es :: unchanged(e.order)
    ensures Queue(es) == old(Queue(es))
  {
  }

  twostate lemma SameView(l: PriceLevel)
    requires unchanged(l) && forall e <- l.Orders :: unchanged(e.order)
    ensures l.View() == old(l.View())
  {
  }

  /** The list without one element; an element that is not in the list changes nothing. */
  function Without(es: seq<Element>, e: Element): seq<Element> {
    if es == [] then [] else if es[0] == e then es[1..] else [es[0]] + Without(es[1..], e)
  }

  class PriceLevel {
    const Price: real
    var Orders: seq<Element>
    var Total: real

    constructor (price: real)
      ensures Price == price && Orders == [] && Total == 0.0
    {
      Price, Orders, Total := price, [], 0.0;
    }

    function View(): Level
      reads this, set e | e in Orders :: e.order
    {
      Level(Price, Queue(Orders), Total)
    }

    method PushBack(order: Order) returns (e: Element)
      modifies this`Orders
      ensures fresh(e) && e.order == order && Orders == old(Orders) + [e]
    {
      e := new Element(order);
      Orders := Orders + [e];
    }

    method Remove(e: Element)
      modifies this`Orders
      ensures Orders == Without(old(Orders), e)
    {
      Orders := Without(Orders, e);
    }

    method AddOrder(order: Order)
      modifies this
      ensures View() == Append(old(View()), order.View())
    {
      ghost var q := Queue(Orders);
      var e := PushBack(order);
      Total := Total + order.RemainAmount;
      assert Queue(Orders) == q + [order.View()];
    }

    /** The linear removal: the first order with this ID, which stood at position at. */
    method RemoveOrder(orderID: nat) returns (removed: Order?, ghost at: nat)
      modifies this
      ensures View() == RemoveFromLevel(old(View()), orderID)
      ensures removed == null <==> !HasId(old(View()).queue, orderID)
      ensures removed != null ==>
        at < |old(Orders)| && Orders == old(Orders)[..at] + old(Orders)[at + 1..] && removed == old(Orders)[at].order &&
        removed.ID == orderID && Total == old(Total - Orders[at].order.RemainAmount) &&
        forall j :: 0 <= j < at ==> old(Orders)[j].order.ID != orderID
    {
      ghost var q := Queue(Orders);
      hide Queue, RemoveId, Find, HasId, Without;
      at := 0;
      var i := 0;
      while i < |Orders|
        invariant 0 <= i <= |Orders| && Orders == old(Orders) && Total == old(Total)
        invariant forall j :: 0 <= j < i ==> Orders[j].order.ID != orderID
      {
        var e := Orders[i];
        if e.order.ID == orderID {
          at := i;
          RemoveAt(q, orderID, i);
          WithoutAt(Orders, i);
          QueueAround(Orders, i);
          Remove(e);
          Total := Total - e.order.RemainAmount;
          return e.order, at;
        }
        i := i + 1;
      }
      AbsentId(q, orderID);
      return null, at;
    }

    method GetFirst() returns (order: Order?)
      ensures order == if Orders == [] then null else Orders[0].order
    {
      if |Orders| == 0 {
        return null;
      }
      return Orders[0].order;
    }

    /** Whatever the total was, afterwards it is the sum of what rests. */
    method UpdateTotal()
      modifies this`Total
      ensures View() == old(View()).(total := Held(old(View())))
    {
      ghost var q := Queue(Orders);
      var total, i := 0.0, 0;
      while i < |Orders|
        invariant 0 <= i <= |Orders| && total == Sum(Remain, q[..i])
      {
        SumConcat(Remain, q[..i], [q[i]]);
        assert q[..i + 1] == q[..i] + [q[i]];
        total := total + Orders[i].order.RemainAmount;
        i := i + 1;
      }
      assert q[..i] == q;
      Total := total;
    }

    predicate IsEmpty()
      reads this
    {
      |Orders| == 0
    }
  }

  lemma {:induction false} RemoveAt(q: seq<Ord>, id: nat, i: nat)
    requires i < |q| && q[i].id == id && forall j :: 0 <= j < i ==> q[j].id != id
    ensures HasId(q, id) && RemoveId(q, id) == q[..i] + q[i + 1..] && Find(q, id) == q[i]
  {
    assert q[i] in q;
    if i > 0 {
      RemoveAt(q[1..], id, i - 1);
      assert q[..i] == [q[0]] + q[1..][..i - 1] && q[i + 1..] == q[1..][i..];
    }
  }

  lemma AbsentId(q: seq<Ord>, id: nat)
    requires forall i :: 0 <= i < |q| ==> q[i].id != id
    ensures !HasId(q, id)
  {
  }

  lemma QueueAround(es: seq<Element>, i: nat)
    requires i < |es|
    ensures Queue(es[..i] + es[i + 1..]) == Queue(es)[..i] + Queue(es)[i + 1..]
  {
    hide Queue;
    QueueConcat(es[..i], es[i + 1..]);
    QueueSlice(es, 0, i);
    QueueSlice(es, i + 1, |es|);
  }

  lemma QueueConcat(a: seq<Element>, b: seq<Element>)
    ensures Queue(a + b) == Queue(a) + Queue(b)
  {
    hide Queue, Order.View;
  }

  lemma QueueSlice(es: seq<Element>, lo: nat, hi: nat)
    requires lo <= hi <= |es|
    ensures Queue(es[lo..hi]) == Queue(es)[lo..hi]
  {
    hide Queue, Order.View;
  }

  lemma {:induction false} WithoutAt(es: seq<Element>, i: nat)
    requires i < |es| && forall j :: 0 <= j < i ==> es[j] != es[i]
    ensures Without(es, es[i]) == es[..i] + es[i + 1..]
  {
    if i > 0 {
      WithoutAt(es[1..], i - 1);
      assert es[..i] == [es[0]] + es[1..][..i - 1] && es[i + 1..] == es[1..][i..];
    }
  }
}
