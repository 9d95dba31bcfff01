/** Resting and cancelling orders: what they keep, and that cancelling undoes resting. */
module BookLaws {
  import opened Models
  import opened SortedKeys
  import opened BookSpec
  import opened MatchLaws

  lemma {:induction false} FlattenConcat(a: seq<Level>, b: seq<Level>)
    ensures Flatten(a + b) == Flatten(a) + Flatten(b)
  {
    if a == [] {
      assert a + b == b;
    } else {
      assert (a + b)[1..] == a[1..] + b;
      FlattenConcat(a[1..], b);
    }
  }

  // ------------------------------------------------------------------ adding

  /** Where an order goes: behind all better levels, and before all worse ones. */
  lemma AddSplits(s: Side, levels: seq<Level>, o: Ord) returns (front: seq<Level>, at: Level, back: seq<Level>)
    requires SideOk(levels, s)
    ensures forall l <- front :: Before(Desc(s), l.price, o.price)
    ensures forall l <- back :: Before(Desc(s), o.price, l.price)
    ensures at.price == o.price && (forall l <- front :: l in levels) && (at in levels || at.queue == [])
    ensures AddTo(s, levels, o) == front + [Append(at, o)] + back
    ensures HasPrice(s, levels, o.price) ==> at.queue != [] && levels == front + [at] + back
    ensures !HasPrice(s, levels, o.price) ==> at == Level(o.price, [], 0.0) && levels == front + back
  {
    hide *;
    var k := PlaceOf(s, levels, o.price);
    PlaceSplits(s, levels, o.price);
    AddCases(s, levels, o);
    front := levels[..k];
    if HasPrice(s, levels, o.price) {
      at, back := levels[k], levels[k + 1..];
      LevelOfSide(s, levels, k);
      Around(levels, k, Append(at, o));
    } else {
      at, back := Level(o.price, [], 0.0), levels[k..];
      assert levels[..k] + levels[k..] == levels;
    }
  }

  lemma AddCases(s: Side, levels: seq<Level>, o: Ord)
    ensures var k := PlaceOf(s, levels, o.price);
      && k <= |levels| && (HasPrice(s, levels, o.price) ==> k < |levels| && levels[k].price == o.price)
      && AddTo(s, levels, o) ==
        if HasPrice(s, levels, o.price) then levels[k := Append(levels[k], o)]
        else levels[..k] + [Append(Level(o.price, [], 0.0), o)] + levels[k..]
  {
    hide Append;
  }

  lemma LevelOfSide(s: Side, levels: seq<Level>, k: nat)
    requires SideOk(levels, s) && k < |levels|
    ensures levels[k] in levels && levels[k].queue != []
  {
  }

  lemma Around<T>(s: seq<T>, k: nat, x: T)
    requires k < |s|
    ensures s == s[..k] + [s[k]] + s[k + 1..] && s[k := x] == s[..k] + [x] + s[k + 1..]
    ensures s[k := x][..k] == s[..k] && s[k := x][k + 1..] == s[k + 1..]
  {
  }

  lemma PlaceSplits(s: Side, levels: seq<Level>, price: real)
    requires SideOk(levels, s)
    ensures var k := PlaceOf(s, levels, price);
      && k <= |levels| && (HasPrice(s, levels, price) ==> k < |levels|)
      && (forall l <- levels[..k] :: Before(Desc(s), l.price, price) && l in levels)
      && (forall l <- levels[if HasPrice(s, levels, price) then k + 1 else k..] :: Before(Desc(s), price, l.price))
  {
    var ps, k := Prices(levels), PlaceOf(s, levels, price);
    var from := if HasPrice(s, levels, price) then k + 1 else k;
    forall l | l in levels[from..]
      ensures Before(Desc(s), price, l.price)
    {
      var i :| from <= i < |levels| && levels[i] == l;
      assert i > k ==> Before(Desc(s), ps[k], ps[i]);
    }
  }

  lemma SortedParts(desc: bool, front: seq<Level>, at: Level, back: seq<Level>)
    requires Sorted(desc, Prices(front)) && Sorted(desc, Prices(back))
    requires forall l <- front :: Before(desc, l.price, at.price)
    requires forall l <- back :: Before(desc, at.price, l.price)
    ensures Sorted(desc, Prices(front + [at] + back))
  {
    var ps := Prices(front + [at] + back);
    forall i, j | 0 <= i < j < |ps|
      ensures Before(desc, ps[i], ps[j])
    {
      if j < |front| {
        assert Before(desc, Prices(front)[i], Prices(front)[j]);
      } else if i > |front| {
        var n := |front| + 1;
        assert Before(desc, Prices(back)[i - n], Prices(back)[j - n]);
      } else {
        assert i < |front| ==> front[i] in front;
        assert j > |front| ==> back[j - |front| - 1] in back;
      }
    }
  }

  lemma SortedPieces(desc: bool, a: seq<Level>, b: seq<Level>)
    requires Sorted(desc, Prices(a + b))
    ensures Sorted(desc, Prices(a)) && Sorted(desc, Prices(b))
  {
    assert Prices(a) == Prices(a + b)[..|a|] && Prices(b) == Prices(a + b)[|a|..];
  }

  lemma AddIsOk(s: Side, levels: seq<Level>, o: Ord)
    requires SideOk(levels, s) && Rests(o, s, o.price)
    ensures SideOk(AddTo(s, levels, o), s)
  {
    var front, at, back := AddSplits(s, levels, o);
    if HasPrice(s, levels, o.price) {
      assert at in levels;
      SortedPieces(Desc(s), front + [at], back);
      SortedPieces(Desc(s), front, [at]);
    } else {
      SortedPieces(Desc(s), front, back);
    }
    SortedParts(Desc(s), front, Append(at, o), back);
    forall l | l in AddTo(s, levels, o)
      ensures LevelOk(l, s)
    {
      if l == Append(at, o) {
        assert forall x <- l.queue :: x in at.queue || x == o;
      } else {
        assert l in levels;
      }
    }
  }

  /** Anything summed over a side grows by exactly the new order. */
  lemma AddSums(s: Side, levels: seq<Level>, o: Ord, w: Ord -> real)
    requires SideOk(levels, s)
    ensures Sum(w, Flatten(AddTo(s, levels, o))) == Sum(w, Flatten(levels)) + w(o)
  {
    var front, at, back := AddSplits(s, levels, o);
    FlattenThree(front, Append(at, o), back, w);
    SumConcat(w, at.queue, [o]);
    if HasPrice(s, levels, o.price) {
      FlattenThree(front, at, back, w);
    } else {
      FlattenConcat(front, back);
      SumConcat(w, Flatten(front), Flatten(back));
    }
  }

  lemma FlattenThree(front: seq<Level>, at: Level, back: seq<Level>, w: Ord -> real)
    ensures Flatten(front + [at] + back) == Flatten(front) + at.queue + Flatten(back)
    ensures Sum(w, Flatten(front + [at] + back)) == Sum(w, Flatten(front)) + Sum(w, at.queue) + Sum(w, Flatten(back))
  {
    FlattenConcat(front + [at], back);
    FlattenConcat(front, [at]);
    assert Flatten([at]) == at.queue;
    SumConcat(w, Flatten(front) + at.queue, Flatten(back));
    SumConcat(w, Flatten(front), at.queue);
  }

  // ------------------------------------------------------------------ cancelling

  lemma NobodyIn(id: nat)
    ensures !HasId([], id)
  {
  }

  lemma {:induction false} RemoveSums(q: seq<Ord>, id: nat, w: Ord -> real)
    requires HasId(q, id)
    ensures Find(q, id) in q && Find(q, id).id == id && |RemoveId(q, id)| == |q| - 1
    ensures Sum(w, RemoveId(q, id)) == Sum(w, q) - w(Find(q, id))
    ensures forall o <- RemoveId(q, id) :: o in q
  {
    if q[0].id != id {
      assert HasId(q[1..], id);
      RemoveSums(q[1..], id, w);
    }
  }

  /** The order that a cancel takes out. */
  function Resting(levels: seq<Level>, id: nat): Ord
    requires SideHas(levels, id)
  {
    if HasId(levels[0].queue, id) then Find(levels[0].queue, id)
    else
      assert SideHas(levels[1..], id);
      Resting(levels[1..], id)
  }

  /** Cancelling is the linear removal from the one level that holds the order, and dropping that level if it is
      empty. */
  lemma {:induction false} CancelAt(levels: seq<Level>, id: nat, i: nat)
    requires i < |levels| && HasId(levels[i].queue, id) && forall j :: 0 <= j < i ==> !HasId(levels[j].queue, id)
    ensures var l := RemoveFromLevel(levels[i], id);
      CancelIn(levels, id) == levels[..i] + (if l.queue == [] then [] else [l]) + levels[i + 1..]
    ensures SideHas(levels, id) && Resting(levels, id) == Find(levels[i].queue, id)
  {
    assert levels[i] in levels;
    if i > 0 {
      assert !HasId(levels[0].queue, id);
      CancelAt(levels[1..], id, i - 1);
      assert levels[..i] == [levels[0]] + levels[1..][..i - 1] && levels[i + 1..] == levels[1..][i..];
    }
  }

  /** The first level that holds an order with this id. */
  function FirstWith(levels: seq<Level>, id: nat): (i: nat)
    requires SideHas(levels, id)
    ensures i < |levels| && HasId(levels[i].queue, id) && forall j :: 0 <= j < i ==> !HasId(levels[j].queue, id)
  {
    if HasId(levels[0].queue, id) then 0
    else
      assert SideHas(levels[1..], id);
      1 + FirstWith(levels[1..], id)
  }

  /** Cancelling keeps a side well-formed, and takes exactly one order out of every sum over it. */
  lemma CancelKeeps(levels: seq<Level>, id: nat, s: Side, w: Ord -> real)
    requires SideOk(levels, s) && SideHas(levels, id)
    ensures var o, c := Resting(levels, id), CancelIn(levels, id);
      && o.id == id && Rests(o, s, o.price)
      && SideOk(c, s) && (forall l <- c :: exists m <- levels :: m.price == l.price)
      && Sum(w, Flatten(c)) == Sum(w, Flatten(levels)) - w(o)
  {
    hide *;
    var i := FirstWith(levels, id);
    CancelAt(levels, id, i);
    var front, l, back := levels[..i], levels[i], levels[i + 1..];
    var l' := RemoveFromLevel(l, id);
    assert levels == front + [l] + back;
    RemovedParts(l, id);
    RemoveSums(l.queue, id, w);
    FlattenThree(front, l, back, w);
    LeftSums(front, l', back, w);
    CancelIsOk(front, l, l', back, s);
    LevelRests(l, s, Find(l.queue, id));
    SamePrices(front, l, l', back);
  }

  lemma RemovedParts(l: Level, id: nat)
    requires HasId(l.queue, id)
    ensures RemoveFromLevel(l, id) == l.(queue := RemoveId(l.queue, id), total := l.total - Find(l.queue, id).remain)
  {
  }

  lemma LeftSums(front: seq<Level>, l: Level, back: seq<Level>, w: Ord -> real)
    ensures Sum(w, Flatten(front + (if l.queue == [] then [] else [l]) + back)) ==
      Sum(w, Flatten(front)) + Sum(w, l.queue) + Sum(w, Flatten(back))
  {
    if l.queue == [] {
      assert front + [] + back == front + back;
      FlattenConcat(front, back);
      SumConcat(w, Flatten(front), Flatten(back));
    } else {
      FlattenThree(front, l, back, w);
    }
  }

  lemma LevelRests(l: Level, s: Side, o: Ord)
    requires LevelOk(l, s) && o in l.queue
    ensures Rests(o, s, o.price)
  {
  }

  lemma SamePrices(front: seq<Level>, l: Level, l': Level, back: seq<Level>)
    requires l'.price == l.price
    ensures forall x <- front + (if l'.queue == [] then [] else [l']) + back ::
      exists m <- front + [l] + back :: m.price == x.price
  {
    var was := front + [l] + back;
    assert was[|front|] == l;
    forall x | x in front + (if l'.queue == [] then [] else [l']) + back
      ensures exists m <- was :: m.price == x.price
    {
      if x == l' { assert l in was; } else { assert x in was; }
    }
  }

  lemma CancelIsOk(front: seq<Level>, l: Level, l': Level, back: seq<Level>, s: Side)
    requires SideOk(front + [l] + back, s) && l'.price == l.price && forall o <- l'.queue :: o in l.queue
    ensures SideOk(front + (if l'.queue == [] then [] else [l']) + back, s)
    ensures LevelOk(l, s)
  {
    var was, now := front + [l] + back, front + (if l'.queue == [] then [] else [l']) + back;
    assert was[|front|] == l;
    var ps, qs := Prices(was), Prices(now);
    forall i, j | 0 <= i < j < |now|
      ensures Before(Desc(s), qs[i], qs[j])
    {
      var shift := if l'.queue == [] then 1 else 0;
      var i', j' := if i < |front| then i else i + shift, if j < |front| then j else j + shift;
      assert Before(Desc(s), ps[i'], ps[j']);
    }
    forall x | x in now
      ensures LevelOk(x, s)
    {
      assert l in was;
      if x !in was {
        assert x == l';
        assert forall o <- l'.queue :: o in l.queue;
      }
    }
  }

  lemma {:induction false} RemoveAppended(q: seq<Ord>, o: Ord)
    requires !HasId(q, o.id)
    ensures HasId(q + [o], o.id) && RemoveId(q + [o], o.id) == q && Find(q + [o], o.id) == o
  {
    assert (q + [o])[|q|] == o;
    if q != [] {
      assert q[0] in q && q[0].id != o.id && (q + [o])[1..] == q[1..] + [o];
      RemoveAppended(q[1..], o);
    }
  }

  lemma AppendThenRemove(l: Level, o: Ord)
    requires !HasId(l.queue, o.id)
    ensures HasId(Append(l, o).queue, o.id) && RemoveFromLevel(Append(l, o), o.id) == l
  {
    RemoveAppended(l.queue, o);
  }

  lemma CancelAppended(front: seq<Level>, at: Level, back: seq<Level>, o: Ord)
    requires !HasId(at.queue, o.id) && forall l <- front :: !HasId(l.queue, o.id)
    ensures CancelIn(front + [Append(at, o)] + back, o.id) == front + (if at.queue == [] then [] else [at]) + back
  {
    var added := front + [Append(at, o)] + back;
    AppendThenRemove(at, o);
    forall j | 0 <= j < |front|
      ensures !HasId(added[j].queue, o.id)
    {
      assert added[j] == front[j] && front[j] in front;
    }
    CancelAt(added, o.id, |front|);
    assert added[..|front|] == front && added[|front| + 1..] == back;
  }

  /** Resting a new order and cancelling it again changes nothing, level totals included. */
  lemma AddThenCancel(s: Side, levels: seq<Level>, o: Ord)
    requires SideOk(levels, s) && !SideHas(levels, o.id)
    ensures CancelIn(AddTo(s, levels, o), o.id) == levels
  {
    var front, at, back := AddSplits(s, levels, o);
    hide *;
    forall l | l in front
      ensures !HasId(l.queue, o.id)
    {
      AbsentEverywhere(levels, o.id, l);
    }
    AbsentEverywhere(levels, o.id, at);
    CancelAppended(front, at, back, o);
    WithoutMiddle(front, back);
  }

  lemma WithoutMiddle(front: seq<Level>, back: seq<Level>)
    ensures front + [] + back == front + back
  {
  }

  lemma AbsentEverywhere(levels: seq<Level>, id: nat, l: Level)
    requires !SideHas(levels, id) && (l in levels || l.queue == [])
    ensures !HasId(l.queue, id)
  {
  }
}
