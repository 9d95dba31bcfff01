/** The red-black tree of price levels: nodes with parent links, one shared black sentinel, and an ascending or
    descending key order. Every method is proved to refine the same operation on a sorted list of entries. */
module RBTrees {
  import opened BookSpec
  import opened Levels
  import opened PowersOfTwo
  import opened SortedKeys
  import opened RBShape
  import opened RBLists
  import opened RBHeap
  import opened RBFixup

  function Cmp(a: real, b: real): int { if a < b then -1 else if a == b then 0 else 1 }

  /** Insert finds the key: only that entry's level is replaced. */
  lemma OverwritesEntry(desc: bool, h: Heap, root: Ref, c: Ctx, t: Tree, level: PriceLevel)
    requires Shaped(h, root, Plug(c, t)) && RB(Plug(c, t)) && !IsRed(Plug(c, t)) && t.Node? && t.ref in h
    requires Sorted(desc, Keys(Entries(Plug(c, t))))
    ensures var v, es := Plug(c, t.(entry := Entry(t.entry.key, level))), Entries(Plug(c, t));
      && Shaped(h[t.ref := h[t.ref].(value := level)], root, v) && RB(v) && !IsRed(v)
      && Entries(v) == Put(desc, es, t.entry.key, level) && Sorted(desc, Keys(Entries(v))) && |Entries(v)| == |es|
  {
    FindsAt(desc, c, t, level);
    PutSorted(desc, Entries(Plug(c, t)), t.entry.key, level);
    Look(h, root, c, t);
    RepaintShaped(h, root, c, t, t.red, level);
    PlugRB(c, t);
    PlugRB(c, t.(entry := Entry(t.entry.key, level)));
  }

  /** Insert misses the key: the new red leaf keeps the order, and breaks the rules at most against its parent. */
  lemma AddsEntry(desc: bool, c: Ctx, node: Ref, key: real, level: PriceLevel)
    requires RB(Plug(c, Leaf)) && !IsRed(Plug(c, Leaf)) && Splits(desc, c, key)
    requires Sorted(desc, Keys(Entries(Plug(c, Leaf))))
    ensures var t := Node(RED, Leaf, node, Entry(key, level), Leaf);
      var v, es := Plug(c, t), Entries(Plug(c, Leaf));
      && RedAt(c, t) && Entries(v) == Put(desc, es, key, level)
      && Sorted(desc, Keys(Entries(v))) && |Entries(v)| == |es| + 1
  {
    LeafBreaksLittle(c, node, Entry(key, level));
    LeafEntries(c, node, Entry(key, level));
    hide *;
    MissesAt(desc, c, key);
    PutSorted(desc, Entries(Plug(c, Leaf)), key, level);
  }

  lemma LeafEntries(c: Ctx, node: Ref, e: Entry)
    ensures Entries(Plug(c, Node(RED, Leaf, node, e, Leaf))) == Pre(c) + [e] + Post(c)
    ensures |Entries(Plug(c, Leaf))| == |Pre(c)| + |Post(c)|
  {
    PlugEntries(c, Leaf);
    PlugEntries(c, Node(RED, Leaf, node, e, Leaf));
    hide Plug, Pre, Post;
  }

  lemma LeafBreaksLittle(c: Ctx, node: Ref, e: Entry)
    requires RB(Plug(c, Leaf)) && !IsRed(Plug(c, Leaf))
    ensures RedAt(c, Node(RED, Leaf, node, e, Leaf))
  {
    PlugRB(c, Leaf);
  }

  /** The heap once the new node has become the missing child of the last node on the path. */
  ghost function Hung(h: Heap, c: Ctx, node: Ref): Heap
    requires node in h && (c.Step? ==> c.ref in h)
  {
    var h1 := h[node := h[node].(parent := Parent(c))];
    if c.Top? then h1 else h1[c.ref := SetKid(h1[c.ref], c.onLeft, node)]
  }

  lemma NewCell(h: Heap, root: Ref, t: Tree, node: Ref, cell: Cell)
    requires Shaped(h, root, t) && forall n <- h :: n < node
    ensures Shaped(h[node := cell], root, t) && node !in Nodes(t) && node != NIL
  {
  }

  lemma StartsSplit(desc: bool, key: real, t: Tree)
    ensures Splits(desc, Top, key) && Plug(Top, t) == t && Parent(Top) == NIL && Depth(Top) == 0
  {
  }

  lemma DropsOne(desc: bool, es: seq<Entry>, key: real)
    requires Found(desc, es, key)
    ensures |Drop(desc, es, key)| == |es| - 1
  {
  }

  /** Taking out a red node breaks no rule. */
  lemma TakenOutRed(c: Ctx, x: Tree)
    requires TakenOut(c, x, true)
    ensures RB(Plug(c, x)) && !IsRed(Plug(c, x))
  {
  }

  lemma NodeRoot(t: Tree)
    requires t.Node?
    ensures Root(t) == t.ref
  {
  }

  lemma LeafRoot(t: Tree)
    ensures t.Leaf? ==> Root(t) == NIL
  {
  }

  lemma HungCases(h: Heap, c: Ctx, node: Ref)
    requires node in h && (c.Step? ==> c.ref in h)
    ensures var h1 := h[node := h[node].(parent := Parent(c))];
      && (c.Top? ==> Hung(h, c, node) == h1)
      && (c.Step? && c.onLeft ==> Hung(h, c, node) == h1[c.ref := h1[c.ref].(left := node)])
      && (c.Step? && !c.onLeft ==> Hung(h, c, node) == h1[c.ref := h1[c.ref].(right := node)])
  {
  }

  lemma ParentAt(h: Heap, root: Ref, c: Ctx)
    requires Shaped(h, root, Plug(c, Leaf))
    ensures Parent(c) == NIL <==> c.Top?
    ensures c.Step? ==> c.ref == Parent(c) && c.ref in h && h[c.ref].key == c.entry.key
    ensures forall n <- Nodes(Plug(c, Leaf)) :: n in h && n != NIL
  {
    Look(h, root, c, Leaf);
  }

  lemma HangsLeaf(h: Heap, root: Ref, c: Ctx, e: Entry, node: Ref)
    requires Shaped(h, root, Plug(c, Leaf)) && (c.Step? ==> c.ref in h)
    requires node !in Nodes(Plug(c, Leaf)) && node != NIL && node in h
    requires h[node] == Cell(e.key, e.level, RED, NIL, NIL, NIL)
    ensures Shaped(Hung(h, c, node), if c.Top? then node else root, Plug(c, Node(RED, Leaf, node, e, Leaf)))
  {
    var t := Node(RED, Leaf, node, e, Leaf);
    PlugNodes(c, Leaf);
    Look(h, root, c, Leaf);
    GraftShaped(h, root, c, Leaf, t, Hung(h, c, node), if c.Top? then node else root);
  }

  /** The successor hangs directly below z, or below another node of z's right subtree. */
  lemma SuccessorPlace(c: Ctx, t: Tree, path: Ctx, m: Tree)
    requires Distinct(Plug(c, t)) && NIL !in Nodes(Plug(c, t)) && t.Node? && m.Node? && m.left.Leaf?
    requires t.right == Plug(path, m)
    ensures var zc := Step(false, t.red, t.ref, t.entry, t.left, c);
      && m.ref != NIL && (Parent(Compose(path, zc)) == t.ref <==> path.Top?)
      && (path.Step? ==> Parent(Compose(path, Step(false, t.red, m.ref, m.entry, t.left, c))) == path.ref)
      && (path.Step? ==> Plug(path, m.right).Node? && m.ref !in Nodes(Plug(c, t.(right := Plug(path, m.right)))))
  {
    PlugNodes(c, t);
    PlugNodes(path, m);
    PlugNodes(path, m.right);
    PlugNodes(c, t.(right := Plug(path, m.right)));
    PlugRoot(path, m.right);
    assert m.ref in Nodes(m) && m.ref in Nodes(t.right) && m.ref in Nodes(t);
    if path.Step? { assert path.ref in CtxNodes(path) && path.ref in Nodes(t.right); }
  }

  lemma NilIsLeaf(h: Heap, root: Ref, c: Ctx, t: Tree, left: bool)
    requires Shaped(h, root, Plug(c, t)) && t.Node? && t.ref in h && KidOf(h[t.ref], left) == NIL
    ensures Kid(t, left).Leaf?
  {
    Look(h, root, c, t);
    Look(h, root, Step(left, t.red, t.ref, t.entry, Kid(t, !left), c), Kid(t, left));
  }

  // ------------------------------------------------------------------ visiting in order

  /** What a callback gets to see of one entry: its key, and its level as it is at the moment. */
  datatype Sight = Sight(key: real, level: Level)

  ghost function Sights(es: seq<Entry>): (ss: seq<Sight>)
    reads (set e | e in es :: e.level), set e, x | e in es && x in e.level.Orders :: x.order
    ensures |ss| == |es| && forall i :: 0 <= i < |es| ==> ss[i] == Sight(es[i].key, es[i].level.View())
  {
    if es == [] then []
    else
      assert es[0] in es;
      [Sight(es[0].key, es[0].level.View())] + Sights(es[1..])
  }

  /** What a callback with a state makes of the entries, one after the other, until it says no. */
  function Visit<A>(f: (A, Sight) -> (A, bool), a: A, ss: seq<Sight>): (A, bool) {
    if ss == [] then (a, true)
    else
      var r := f(a, ss[0]);
      if r.1 then Visit(f, r.0, ss[1..]) else (r.0, false)
  }

  lemma {:induction false} VisitConcat<A>(f: (A, Sight) -> (A, bool), a: A, ss: seq<Sight>, ts: seq<Sight>)
    ensures Visit(f, a, ss + ts) == var r := Visit(f, a, ss); if r.1 then Visit(f, r.0, ts) else r
  {
    if ss == [] {
      assert ss + ts == ts;
    } else {
      assert (ss + ts)[1..] == ss[1..] + ts;
      var r := f(a, ss[0]);
      if r.1 { VisitConcat(f, r.0, ss[1..], ts); }
    }
  }

  lemma SightsOfNode(l: seq<Entry>, e: Entry, r: seq<Entry>)
    ensures Sights(l + [e] + r) == Sights(l) + [Sight(e.key, e.level.View())] + Sights(r)
  {
    hide Sights, PriceLevel.View;
  }

  lemma VisitNode<A>(f: (A, Sight) -> (A, bool), a: A, t: Tree)
    requires t.Node?
    ensures Visit(f, a, Sights(Entries(t))) ==
      var l := Visit(f, a, Sights(Entries(t.left)));
      if !l.1 then l else
        var m := f(l.0, Sight(t.entry.key, t.entry.level.View()));
        if !m.1 then (m.0, false) else Visit(f, m.0, Sights(Entries(t.right)))
  {
    hide Sights, PriceLevel.View;
    var l, e, r := Sights(Entries(t.left)), Sight(t.entry.key, t.entry.level.View()), Sights(Entries(t.right));
    SightsOfNode(Entries(t.left), t.entry, Entries(t.right));
    VisitConcat(f, a, l + [e], r);
    VisitConcat(f, a, l, [e]);
  }

  lemma VisitNothing<A>(f: (A, Sight) -> (A, bool), a: A, t: Tree)
    ensures t.Leaf? ==> Visit(f, a, Sights(Entries(t))) == (a, true)
  {
  }

  /** What the cell of a node says, and how to go on to its children. */
  lemma NodeAt(h: Heap, root: Ref, c: Ctx, t: Tree)
    requires Shaped(h, root, Plug(c, t))
    ensures (Root(t) == NIL <==> t.Leaf?) && (Parent(c) == NIL <==> c.Top?)
    ensures t.Node? ==> t.ref == Root(t) && t.ref in h && h[t.ref].key == t.entry.key && h[t.ref].value == t.entry.level
    ensures t.Node? ==> h[t.ref].left == Root(t.left) && h[t.ref].right == Root(t.right)
    ensures t.Node? ==> Plug(Step(true, t.red, t.ref, t.entry, t.right, c), t.left) == Plug(c, t)
    ensures t.Node? ==> Plug(Step(false, t.red, t.ref, t.entry, t.left, c), t.right) == Plug(c, t)
  {
    Look(h, root, c, t);
  }

  /** The state of a callback that also writes down what it was shown. */
  function Recording<A>(f: (A, Sight) -> (A, bool)): ((A, seq<Sight>), Sight) -> ((A, seq<Sight>), bool) {
    (a: (A, seq<Sight>), s: Sight) => var r := f(a.0, s); ((r.0, a.1 + [s]), r.1)
  }

  /** A callback is shown a prefix of the whole sequence: all of it, or up to the entry at which it said no. */
  lemma {:induction false} VisitsPrefix<A>(f: (A, Sight) -> (A, bool), a: A, ss: seq<Sight>, seen: seq<Sight>)
    returns (n: nat)
    ensures n <= |ss| && Visit(Recording(f), (a, seen), ss) == ((Visit(f, a, ss).0, seen + ss[..n]), Visit(f, a, ss).1)
    ensures Visit(f, a, ss).1 ==> n == |ss|
    ensures !Visit(f, a, ss).1 ==> n > 0 && Visit(f, a, ss[..n - 1]).1 && !f(Visit(f, a, ss[..n - 1]).0, ss[n - 1]).1
  {
    n := 0;
    assert seen + ss[..0] == seen;
    if ss != [] {
      var r := f(a, ss[0]);
      assert Recording(f)((a, seen), ss[0]) == ((r.0, seen + [ss[0]]), r.1);
      n := 1;
      assert ss[..1] == [ss[0]];
      if r.1 {
        n := VisitsPrefix(f, r.0, ss[1..], seen + [ss[0]]);
        n := n + 1;
        assert seen + ss[..n] == seen + [ss[0]] + ss[1..][..n - 1];
        assert n > 1 ==> ss[..n - 1][1..] == ss[1..][..n - 2];
      }
    }
  }

  class RBTree {
    var root: Ref
    var size: int
    const desc: bool
    var heap: Heap
    var next: Ref       // the next address to allocate
    ghost var shape: Tree

    ghost predicate Valid()
      reads this
    {
      && Shaped(heap, root, shape) && RB(shape) && !IsRed(shape)
      && Sorted(desc, Keys(Entries(shape))) && size == |Entries(shape)|
      && forall n <- heap :: n < next
    }

    /** The sorted list of price levels this tree stands for. */
    ghost function Contents(): seq<Entry>
      reads this
    {
      Entries(shape)
    }

    function Compare(cmp: int): int { if desc then -cmp else cmp }

    constructor (desc: bool)
      ensures Valid() && Contents() == [] && this.desc == desc
    {
      heap, next := map[NIL := Cell(0.0, null, BLACK, NIL, NIL, NIL)], NIL + 1;
      root, size, this.desc, shape := NIL, 0, desc, Leaf;
    }

    method LeftRotate(x: Ref, ghost c: Ctx, ghost t: Tree)
      requires Shaped(heap, root, Plug(c, t)) && t.Node? && t.right.Node? && x == t.ref
      modifies this`heap, this`root
      ensures Shaped(heap, root, Plug(c, Rotate(true, t)))
      ensures heap.Keys == old(heap.Keys) && heap[NIL] == old(heap[NIL])
    {
      RotateShaped(true, heap, root, c, t);
      hide Shaped, Plug, Rotate;
      var y := heap[x].right;
      heap := heap[x := heap[x].(right := heap[y].left)];
      if heap[y].left != NIL {
        heap := heap[heap[y].left := heap[heap[y].left].(parent := x)];
      }
      heap := heap[y := heap[y].(parent := heap[x].parent)];
      if heap[x].parent == NIL {
        root := y;
      } else if x == heap[heap[x].parent].left {
        heap := heap[heap[x].parent := heap[heap[x].parent].(left := y)];
      } else {
        heap := heap[heap[x].parent := heap[heap[x].parent].(right := y)];
      }
      heap := heap[y := heap[y].(left := x)];
      heap := heap[x := heap[x].(parent := y)];
    }

    method RightRotate(x: Ref, ghost c: Ctx, ghost t: Tree)
      requires Shaped(heap, root, Plug(c, t)) && t.Node? && t.left.Node? && x == t.ref
      modifies this`heap, this`root
      ensures Shaped(heap, root, Plug(c, Rotate(false, t)))
      ensures heap.Keys == old(heap.Keys) && heap[NIL] == old(heap[NIL])
    {
      RotateShaped(false, heap, root, c, t);
      hide Shaped, Plug, Rotate;
      var y := heap[x].left;
      heap := heap[x := heap[x].(left := heap[y].right)];
      if heap[y].right != NIL {
        heap := heap[heap[y].right := heap[heap[y].right].(parent := x)];
      }
      heap := heap[y := heap[y].(parent := heap[x].parent)];
      if heap[x].parent == NIL {
        root := y;
      } else if x == heap[heap[x].parent].right {
        heap := heap[heap[x].parent := heap[heap[x].parent].(right := y)];
      } else {
        heap := heap[heap[x].parent := heap[heap[x].parent].(left := y)];
      }
      heap := heap[y := heap[y].(right := x)];
      heap := heap[x := heap[x].(parent := y)];
    }

    method SetColor(n: Ref, color: bool, ghost c: Ctx, ghost t: Tree)
      requires Shaped(heap, root, Plug(c, t)) && t.Node? && n == t.ref
      modifies this`heap
      ensures Shaped(heap, root, Plug(c, t.(red := color)))
      ensures heap.Keys == old(heap.Keys) && heap[NIL] == old(heap[NIL])
    {
      Look(heap, root, c, t);
      RepaintShaped(heap, root, c, t, color, t.entry.level);
      heap := heap[n := heap[n].(red := color)];
    }

    /** Red uncle, either side: the blackness of the grandparent moves down to its children. */
    method PushBlackness(node: Ref, uncle: Ref, ghost c: Ctx, ghost t: Tree) returns (up: Ref)
      requires Shaped(heap, root, Plug(c, t)) && t.Node? && node == t.ref && c.Step? && c.up.Step?
      requires c.up.sib.Node? && uncle == c.up.sib.ref
      modifies this`heap
      ensures Shaped(heap, root, Plug(c.up.up, Recolored(c, t))) && up == c.up.ref
      ensures heap.Keys == old(heap.Keys) && heap[NIL] == old(heap[NIL])
    {
      ghost var g, p := c.up, Join(c.onLeft, c.red, t, c.ref, c.entry, c.sib);
      Look(heap, root, c, t);
      SetColor(heap[node].parent, BLACK, g, p);
      p := p.(red := BLACK);
      ghost var cu := Step(!g.onLeft, g.red, g.ref, g.entry, p, g.up);
      SetColor(uncle, BLACK, cu, g.sib);
      ghost var u := g.sib.(red := BLACK);
      Look(heap, root, Step(g.onLeft, g.red, g.ref, g.entry, u, g.up), p);
      Look(heap, root, Step(c.onLeft, BLACK, c.ref, c.entry, c.sib, Step(g.onLeft, g.red, g.ref, g.entry, u, g.up)), t);
      up := heap[heap[node].parent].parent;
      SetColor(up, RED, g.up, Join(g.onLeft, g.red, p, g.ref, g.entry, u));
    }

    /** Black uncle, on the right of the grandparent. */
    method RotateRedRight(start: Ref, ghost c0: Ctx, ghost t0: Tree) returns (node: Ref, ghost c: Ctx, ghost t: Tree)
      requires Shaped(heap, root, Plug(c0, t0)) && RedAt(c0, t0) && start == t0.ref
      requires CtxRed(c0) && c0.up.Step? && c0.up.onLeft && !IsRed(c0.up.sib)
      modifies this`heap, this`root
      ensures Shaped(heap, root, Plug(c, t)) && RedAt(c, t) && node == t.ref && c.Step? && !c.red
      ensures Entries(Plug(c, t)) == Entries(Plug(c0, t0)) && Depth(c) < Depth(c0)
      ensures heap.Keys == old(heap.Keys) && heap[NIL] == old(heap[NIL])
    {
      node, c, t := start, c0, t0;
      Look(heap, root, c, t);
      Look(heap, root, c.up, Join(c.onLeft, c.red, t, c.ref, c.entry, c.sib));
      if node == heap[heap[node].parent].right {
        RotatedOut(c, t);
        node := heap[node].parent;
        LeftRotate(node, c.up, Join(false, RED, t, c.ref, c.entry, c.sib));
        c, t := Step(true, RED, t.ref, t.entry, t.right, c.up), Join(false, RED, t.left, c.ref, c.entry, c.sib);
      }
      RotatedDown(c, t);
      ghost var g, p := c.up, Join(true, RED, t, c.ref, c.entry, c.sib);
      Look(heap, root, c, t);
      SetColor(heap[node].parent, BLACK, g, p);
      p := p.(red := BLACK);
      Look(heap, root, Step(c.onLeft, BLACK, c.ref, c.entry, c.sib, g), t);
      Look(heap, root, g, p);
      SetColor(heap[heap[node].parent].parent, RED, g.up, Join(true, g.red, p, g.ref, g.entry, g.sib));
      Look(heap, root, Step(c.onLeft, BLACK, c.ref, c.entry, c.sib, Step(true, RED, g.ref, g.entry, g.sib, g.up)), t);
      Look(heap, root, Step(true, RED, g.ref, g.entry, g.sib, g.up), p);
      RightRotate(heap[heap[node].parent].parent, g.up, Join(true, RED, p, g.ref, g.entry, g.sib));
      c := Step(true, BLACK, c.ref, c.entry, Join(true, RED, c.sib, g.ref, g.entry, g.sib), g.up);
    }

    /** Black uncle, on the left of the grandparent. */
    method RotateRedLeft(start: Ref, ghost c0: Ctx, ghost t0: Tree) returns (node: Ref, ghost c: Ctx, ghost t: Tree)
      requires Shaped(heap, root, Plug(c0, t0)) && RedAt(c0, t0) && start == t0.ref
      requires CtxRed(c0) && c0.up.Step? && !c0.up.onLeft && !IsRed(c0.up.sib)
      modifies this`heap, this`root
      ensures Shaped(heap, root, Plug(c, t)) && RedAt(c, t) && node == t.ref && c.Step? && !c.red
      ensures Entries(Plug(c, t)) == Entries(Plug(c0, t0)) && Depth(c) < Depth(c0)
      ensures heap.Keys == old(heap.Keys) && heap[NIL] == old(heap[NIL])
    {
      node, c, t := start, c0, t0;
      Look(heap, root, c, t);
      Look(heap, root, c.up, Join(c.onLeft, c.red, t, c.ref, c.entry, c.sib));
      if node == heap[heap[node].parent].left {
        RotatedOut(c, t);
        node := heap[node].parent;
        RightRotate(node, c.up, Join(true, RED, t, c.ref, c.entry, c.sib));
        c, t := Step(false, RED, t.ref, t.entry, t.left, c.up), Join(true, RED, t.right, c.ref, c.entry, c.sib);
      }
      RotatedDown(c, t);
      ghost var g, p := c.up, Join(false, RED, t, c.ref, c.entry, c.sib);
      Look(heap, root, c, t);
      SetColor(heap[node].parent, BLACK, g, p);
      p := p.(red := BLACK);
      Look(heap, root, Step(c.onLeft, BLACK, c.ref, c.entry, c.sib, g), t);
      Look(heap, root, g, p);
      SetColor(heap[heap[node].parent].parent, RED, g.up, Join(false, g.red, p, g.ref, g.entry, g.sib));
      Look(heap, root, Step(c.onLeft, BLACK, c.ref, c.entry, c.sib, Step(false, RED, g.ref, g.entry, g.sib, g.up)), t);
      Look(heap, root, Step(false, RED, g.ref, g.entry, g.sib, g.up), p);
      LeftRotate(heap[heap[node].parent].parent, g.up, Join(false, RED, p, g.ref, g.entry, g.sib));
      c := Step(false, BLACK, c.ref, c.entry, Join(false, RED, c.sib, g.ref, g.entry, g.sib), g.up);
    }

    /** One round of the insert loop: node and its parent are both red. */
    method RepairRed(start: Ref, ghost c0: Ctx, ghost t0: Tree) returns (node: Ref, ghost c: Ctx, ghost t: Tree)
      requires Shaped(heap, root, Plug(c0, t0)) && RedAt(c0, t0) && CtxRed(c0) && start == t0.ref
      modifies this`heap, this`root
      ensures Shaped(heap, root, Plug(c, t)) && RedAt(c, t) && node == t.ref
      ensures Entries(Plug(c, t)) == Entries(Plug(c0, t0)) && Depth(c) < Depth(c0)
      ensures heap.Keys == old(heap.Keys) && heap[NIL] == old(heap[NIL])
    {
      node, c, t := start, c0, t0;
      GrandparentIsBlack(c, t);
      Look(heap, root, c, t);
      Look(heap, root, c.up, Join(c.onLeft, RED, t, c.ref, c.entry, c.sib));
      if heap[node].parent == heap[heap[heap[node].parent].parent].left {
        var uncle := heap[heap[heap[node].parent].parent].right;
        if heap[uncle].red {
          RecoloredIsRed(c, t);
          node := PushBlackness(node, uncle, c, t);
          c, t := c.up.up, Recolored(c, t);
        } else {
          node, c, t := RotateRedRight(node, c, t);
        }
      } else {
        var uncle := heap[heap[heap[node].parent].parent].left;
        if heap[uncle].red {
          RecoloredIsRed(c, t);
          node := PushBlackness(node, uncle, c, t);
          c, t := c.up.up, Recolored(c, t);
        } else {
          node, c, t := RotateRedLeft(node, c, t);
        }
      }
    }

    method InsertFixup(start: Ref, ghost c0: Ctx, ghost t0: Tree)
      requires Shaped(heap, root, Plug(c0, t0)) && RedAt(c0, t0) && start == t0.ref
      modifies this`heap, this`root, this`shape
      ensures Shaped(heap, root, shape) && RB(shape) && !IsRed(shape)
      ensures Entries(shape) == Entries(Plug(c0, t0))
      ensures heap.Keys == old(heap.Keys) && heap[NIL] == old(heap[NIL])
    {
      var node := start;
      ghost var c, t := c0, t0;
      Look(heap, root, c, t);
      while heap[heap[node].parent].red
        invariant Shaped(heap, root, Plug(c, t)) && RedAt(c, t) && node == t.ref
        invariant Entries(Plug(c, t)) == Entries(Plug(c0, t0))
        invariant heap.Keys == old(heap.Keys) && heap[NIL] == old(heap[NIL])
        invariant node in heap && heap[node].parent == Parent(c) && Parent(c) in heap
        invariant heap[Parent(c)].red == CtxRed(c)
        decreases Depth(c)
      {
        node, c, t := RepairRed(node, c, t);
        Look(heap, root, c, t);
        OnlyRootIsOnTop(heap, root, c, t);
        if node == root {
          break;
        }
      }
      RedIsRepaired(c, t);
      PlugRoot(c, t);
      SetColor(root, BLACK, Top, Plug(c, t));
      shape := Blacken(Plug(c, t));
    }

    /** The second half of Insert: link the new node below the last node of the descent, count it, repair. */
    method Attach(node: Ref, parent: Ref, key: real, ghost value: PriceLevel, ghost c: Ctx)
      requires Shaped(heap, root, Plug(c, Leaf)) && parent == Parent(c) && Splits(desc, c, key)
      requires RB(Plug(c, Leaf)) && !IsRed(Plug(c, Leaf)) && Sorted(desc, Keys(Entries(Plug(c, Leaf))))
      requires size == |Entries(Plug(c, Leaf))| && forall n <- heap :: n < next
      requires node !in Nodes(Plug(c, Leaf)) && node != NIL
      requires node in heap && heap[node] == Cell(key, value, RED, NIL, NIL, NIL)
      modifies this
      ensures Valid() && Contents() == Put(desc, Entries(Plug(c, Leaf)), key, value)
    {
      hide *;
      ghost var h := heap;
      ParentAt(heap, root, c);
      HungCases(heap, c, node);
      heap := heap[node := heap[node].(parent := parent)];
      if parent == NIL {
        root := node;
      } else {
        var cmp := Cmp(key, heap[parent].key);
        SplitSide(desc, c, key);
        CompareIs(key, heap[parent].key);
        if Compare(cmp) < 0 {
          heap := heap[parent := heap[parent].(left := node)];
        } else {
          heap := heap[parent := heap[parent].(right := node)];
        }
      }
      HangsLeaf(h, old(root), c, Entry(key, value), node);
      AddsEntry(desc, c, node, key, value);
      size := size + 1;
      InsertFixup(node, c, Node(RED, Leaf, node, Entry(key, value), Leaf));
      IsValid();
    }

    lemma IsValid()
      requires Shaped(heap, root, shape) && RB(shape) && !IsRed(shape)
      requires Sorted(desc, Keys(Entries(shape))) && size == |Entries(shape)| && forall n <- heap :: n < next
      ensures Valid() && Contents() == Entries(shape)
    {
    }

    lemma CompareIs(a: real, b: real)
      ensures Compare(Cmp(a, b)) < 0 <==> Before(desc, a, b)
      ensures (Cmp(a, b) == 0 <==> a == b) && (a != b && !Before(desc, a, b) ==> Before(desc, b, a))
    {
    }

    /** Puts a level under a key; steps counts the nodes that the descent goes through. */
    method Insert(key: real, value: PriceLevel) returns (ghost steps: nat)
      requires Valid()
      modifies this
      ensures Valid() && Contents() == Put(desc, old(Contents()), key, value)
      ensures old(size) >= 0 && steps <= 2 * Log2(old(size) + 1)
    {
      hide *;
      ValidParts();
      IsShallow();
      steps := 0;
      NewCell(heap, root, shape, next, Cell(key, value, RED, NIL, NIL, NIL));
      StartsSplit(desc, key, shape);
      var node := next;
      next := next + 1;
      heap := heap[node := Cell(key, value, RED, NIL, NIL, NIL)];
      var parent, current := NIL, root;
      ghost var c, t, h := Top, shape, heap;
      while current != NIL
        invariant heap == h && root == old(root) && next == old(next) + 1 && shape == old(shape) && size == old(size)
        invariant Plug(c, t) == shape && current == Root(t) && parent == Parent(c) && Splits(desc, c, key)
        invariant steps == Depth(c)
        decreases t
      {
        DescendAt(heap, root, c, t, key);
        OneDeeper(c, t);
        parent := current;
        steps := steps + 1;
        var cmp := Cmp(key, heap[current].key);
        CompareIs(key, heap[current].key);
        if cmp == 0 {
          OverwritesEntry(desc, heap, root, c, t, value);
          heap := heap[current := heap[current].(value := value)];
          shape := Plug(c, t.(entry := Entry(key, value)));
          IsValid();
          return;
        }
        if Compare(cmp) < 0 {
          c, t := Step(true, t.red, t.ref, t.entry, t.right, c), t.left;
          current := heap[current].left;
        } else {
          c, t := Step(false, t.red, t.ref, t.entry, t.left, c), t.right;
          current := heap[current].right;
        }
      }
      NodeAt(heap, root, c, t);
      PlugHeight(c, t);
      Attach(node, parent, key, value, c);
    }

    /** Below any node that a descent meets there is still some of the tree's height left. */
    lemma OneDeeper(c: Ctx, t: Tree)
      requires t.Node?
      ensures Depth(c) < Height(Plug(c, t))
      ensures Depth(Step(true, t.red, t.ref, t.entry, t.right, c)) == Depth(c) + 1
      ensures Depth(Step(false, t.red, t.ref, t.entry, t.left, c)) == Depth(c) + 1
    {
      PlugHeight(c, t);
    }

    lemma ValidParts()
      requires Valid()
      ensures Shaped(heap, root, shape) && RB(shape) && !IsRed(shape) && Contents() == Entries(shape)
      ensures Sorted(desc, Keys(Entries(shape))) && size == |Entries(shape)| && forall n <- heap :: n < next
    {
    }

    /** What a descent for a key finds at a node, and where it goes from there. */
    lemma DescendAt(h: Heap, root: Ref, c: Ctx, t: Tree, key: real)
      requires Shaped(h, root, Plug(c, t)) && Root(t) != NIL && Splits(desc, c, key)
      requires Sorted(desc, Keys(Entries(Plug(c, t))))
      ensures t.Node? && t.ref == Root(t) && t.ref in h && h[t.ref].key == t.entry.key
      ensures h[t.ref].left == Root(t.left) && h[t.ref].right == Root(t.right) && h[t.ref].value == t.entry.level
      ensures var l, r := Step(true, t.red, t.ref, t.entry, t.right, c), Step(false, t.red, t.ref, t.entry, t.left, c);
        && Plug(l, t.left) == Plug(c, t) && Plug(r, t.right) == Plug(c, t) && Parent(l) == t.ref && Parent(r) == t.ref
        && (Before(desc, key, t.entry.key) ==> Splits(desc, l, key))
        && (Before(desc, t.entry.key, key) ==> Splits(desc, r, key))
    {
      NodeAt(h, root, c, t);
      DescendSplits(desc, c, t, key);
      hide Shaped, Splits, Plug, Entries;
    }

    /** Descents are short: Search, the descent of Insert, Minimum and Maximum go through at most this many nodes. */
    lemma IsShallow()
      requires Valid()
      ensures size >= 0 && Height(shape) <= 2 * Log2(size + 1) && Pow2((Height(shape) + 1) / 2) <= size + 1
    {
      HeightIsLogarithmic(shape);
    }

    /** Where the descent for key ends; c is the path to it, and no longer than the tree is high. */
    method Search(key: real) returns (node: Ref, ghost c: Ctx, ghost t: Tree)
      requires Valid()
      ensures Plug(c, t) == shape && node == Root(t) && Splits(desc, c, key)
      ensures t.Node? ==> t.entry.key == key && node in heap && node != NIL && heap[node].value == t.entry.level
      ensures t.Leaf? ==> node == NIL
      ensures node == NIL <==> !Found(desc, Contents(), key)
      ensures node != NIL ==> node in heap && heap[node].key == key
      ensures node != NIL ==> heap[node].value == LevelAt(desc, Contents(), key)
      ensures size >= 0 && Depth(c) <= Height(shape) <= 2 * Log2(size + 1)
    {
      hide *;
      ValidParts();
      IsShallow();
      StartsSplit(desc, key, shape);
      var current := root;
      c, t := Top, shape;
      while current != NIL
        invariant Plug(c, t) == shape && current == Root(t) && Splits(desc, c, key)
        decreases t
      {
        DescendAt(heap, root, c, t, key);
        CompareIs(key, heap[current].key);
        PlugHeight(c, t);
        var cmp := Cmp(key, heap[current].key);
        if cmp == 0 {
          FindsAt(desc, c, t, t.entry.level);
          return current, c, t;
        }
        if Compare(cmp) < 0 {
          c, t := Step(true, t.red, t.ref, t.entry, t.right, c), t.left;
          current := heap[current].left;
        } else {
          c, t := Step(false, t.red, t.ref, t.entry, t.left, c), t.right;
          current := heap[current].right;
        }
      }
      NodeAt(heap, root, c, t);
      MissesAt(desc, c, key);
      PlugHeight(c, t);
      return NIL, c, t;
    }

    method Get(key: real) returns (level: PriceLevel?)
      requires Valid()
      ensures level == LevelAt(desc, Contents(), key)
    {
      var node, c, t := Search(key);
      if node == NIL {
        return null;
      }
      return heap[node].value;
    }

    method Transplant(u: Ref, v: Ref)
      requires u in heap && v in heap && heap[u].parent in heap
      modifies this`heap, this`root
      ensures heap == old(Transplanted(heap, u, v))
      ensures root == if old(heap[u].parent) == NIL then v else old(root)
    {
      if heap[u].parent == NIL {
        root := v;
      } else if u == heap[heap[u].parent].left {
        heap := heap[heap[u].parent := heap[heap[u].parent].(left := v)];
      } else {
        heap := heap[heap[u].parent := heap[heap[u].parent].(right := v)];
      }
      heap := heap[v := heap[v].(parent := heap[u].parent)];
    }

    method Minimum(start: Ref, ghost c: Ctx, ghost t: Tree) returns (node: Ref, ghost path: Ctx, ghost m: Tree)
      requires Shaped(heap, root, Plug(c, t)) && t.Node? && start == t.ref
      ensures Plug(path, m) == t && Leftmost(path) && m.Node? && m.left.Leaf? && node == m.ref && node in heap
      ensures Depth(path) < Height(t)
    {
      node, path, m := start, Top, t;
      Look(heap, root, c, t);
      while heap[node].left != NIL
        invariant Plug(path, m) == t && Leftmost(path) && m.Node? && node == m.ref && node in heap
        invariant heap[node].left == Root(m.left)
        decreases m
      {
        node, path, m := heap[node].left, Step(true, m.red, m.ref, m.entry, m.right, path), m.left;
        PlugCompose(path, c, m);
        Look(heap, root, Compose(path, c), m);
      }
      PlugCompose(path, c, m);
      Look(heap, root, Compose(path, c), m);
      Look(heap, root, Step(true, m.red, m.ref, m.entry, m.right, Compose(path, c)), m.left);
      PlugHeight(path, m);
    }

    /** The steps that both kinds of successor share. */
    method Seat(z: Ref, y: Ref)
      requires z in heap && y in heap && heap[z].left in heap && heap[z].parent in heap && z != y
      requires heap[z].parent != z
      modifies this`heap, this`root
      ensures heap == old(Seated(heap, z, y))
      ensures root == if old(heap[z].parent) == NIL then y else old(root)
    {
      Transplant(z, y);
      heap := heap[y := heap[y].(left := heap[z].left)];
      heap := heap[heap[y].left := heap[heap[y].left].(parent := y)];
      heap := heap[y := heap[y].(red := heap[z].red)];
    }

    /** z's right child y has no left child: y itself moves up. */
    method SeatChild(z: Ref, y: Ref, x: Ref, ghost c: Ctx, ghost t: Tree)
      requires Shaped(heap, root, Plug(c, t)) && t.Node? && t.left.Node? && t.right.Node? && t.right.left.Leaf?
      requires z == t.ref && y == t.right.ref && x == Root(t.right.right)
      modifies this`heap, this`root
      ensures Shaped(heap, root, Plug(c, Node(t.red, t.left, y, t.right.entry, t.right.right)))
      ensures heap.Keys == old(heap.Keys) && x in heap && (x == NIL ==> heap[x].parent == y)
    {
      ghost var v := Node(t.red, t.left, y, t.right.entry, t.right.right);
      ghost var was := heap;
      hide *;
      CanSeatNear(heap, root, c, t);
      NodeAt(heap, root, c, t);
      NodeRoot(t.right);
      LeafRoot(t.right.right);
      heap := heap[x := heap[x].(parent := y)];
      SeatApart(was, heap, root, c, t, v);
      SeatShaped(was, heap, root, c, t, v);
      Seat(z, y);
    }

    /** y has been cut out of z's right subtree. */
    method SeatDescendant(z: Ref, y: Ref, ghost c: Ctx, ghost t: Tree, ghost e: Entry)
      requires Shaped(heap, root, Plug(c, t)) && t.Node? && t.left.Node? && t.right.Node? && z == t.ref
      requires y in heap && y != NIL && y !in Nodes(Plug(c, t)) && heap[y].key == e.key && heap[y].value == e.level
      modifies this`heap, this`root
      ensures Shaped(heap, root, Plug(c, Node(t.red, t.left, y, e, t.right)))
      ensures heap.Keys == old(heap.Keys) && heap[NIL] == old(heap[NIL])
    {
      ghost var v := Node(t.red, t.left, y, e, t.right);
      ghost var was := heap;
      hide *;
      CanSeatFar(heap, root, c, t, y, e);
      NodeAt(heap, root, c, t);
      NodeRoot(t.right);
      heap := heap[y := heap[y].(right := heap[z].right)];
      heap := heap[heap[y].right := heap[heap[y].right].(parent := y)];
      SeatApart(was, heap, root, c, t, v);
      SeatShaped(was, heap, root, c, t, v);
      Seat(z, y);
    }

    /** z has two children: its successor y moves into its place. x is what is left in y's old place. */
    method ReplaceBySuccessor(z: Ref, ghost c: Ctx, ghost t: Tree)
        returns (x: Ref, yRed: bool, ghost cx: Ctx, ghost tx: Tree)
      requires Shaped(heap, root, Plug(c, t)) && RB(Plug(c, t)) && !IsRed(Plug(c, t))
      requires Sorted(desc, Keys(Entries(Plug(c, t)))) && t.Node? && t.left.Node? && t.right.Node? && z == t.ref
      modifies this`heap, this`root
      ensures Shaped(heap, root, Plug(cx, tx)) && TakenOut(cx, tx, yRed)
      ensures x == Root(tx) && x in heap && heap[x].parent == Parent(cx)
      ensures Entries(Plug(cx, tx)) == Drop(desc, Entries(Plug(c, t)), t.entry.key)
      ensures heap.Keys == old(heap.Keys)
    {
      ghost var zc := Step(false, t.red, t.ref, t.entry, t.left, c);
      Look(heap, root, c, t);
      var y;
      ghost var path, m;
      y, path, m := Minimum(heap[z].right, zc, t.right);
      TakeOutSuccessor(c, t, path, m);
      TakeOutSuccessorEntry(desc, c, t, path, m);
      PlugCompose(path, zc, m);
      KidIsThere(heap, root, Compose(path, zc), m, false);
      cx, tx := Compose(path, Step(false, t.red, m.ref, m.entry, t.left, c)), m.right;
      PlugCompose(path, Step(false, t.red, m.ref, m.entry, t.left, c), tx);
      Look(heap, root, Compose(path, zc), m);
      yRed := heap[y].red;
      x := heap[y].right;
      SuccessorPlace(c, t, path, m);
      if heap[y].parent == z {
        SeatChild(z, y, x, c, t);
      } else {
        ghost var t' := t.(right := Plug(path, tx));
        PlugCompose(path, zc, tx);
        TransplantKid(heap, root, Compose(path, zc), m, false);
        Transplant(y, heap[y].right);
        Look(heap, root, c, t');
        SeatDescendant(z, y, c, t', m.entry);
      }
      Look(heap, root, cx, tx);
    }

    /** Red sibling of a short left (right) subtree: one rotation makes the sibling black. */
    method RaiseRightSibling(x: Ref, w: Ref, ghost c: Ctx, ghost t: Tree) returns (sib: Ref)
      requires Shaped(heap, root, Plug(c, t)) && BlackShort(c, t) && c.Step? && c.onLeft && IsRed(c.sib)
      requires x == Root(t) && x in heap && heap[x].parent == c.ref && w == c.sib.ref
      modifies this`heap, this`root
      ensures Shaped(heap, root, Plug(SiblingRaised(c), t)) && sib == Root(SiblingRaised(c).sib)
      ensures heap.Keys == old(heap.Keys) && heap[NIL] == old(heap[NIL]) && heap[x].parent == c.ref
    {
      RaisesSibling(c, t);
      ghost var black := c.sib.(red := BLACK);
      SetColor(w, BLACK, Step(false, c.red, c.ref, c.entry, t, c.up), c.sib);
      Look(heap, root, c.(sib := black), t);
      SetColor(heap[x].parent, RED, c.up, Node(c.red, t, c.ref, c.entry, black));
      Look(heap, root, c.(sib := black, red := RED), t);
      LeftRotate(heap[x].parent, c.up, Node(RED, t, c.ref, c.entry, black));
      Look(heap, root, SiblingRaised(c), t);
      sib := heap[heap[x].parent].right;
    }

    method RaiseLeftSibling(x: Ref, w: Ref, ghost c: Ctx, ghost t: Tree) returns (sib: Ref)
      requires Shaped(heap, root, Plug(c, t)) && BlackShort(c, t) && c.Step? && !c.onLeft && IsRed(c.sib)
      requires x == Root(t) && x in heap && heap[x].parent == c.ref && w == c.sib.ref
      modifies this`heap, this`root
      ensures Shaped(heap, root, Plug(SiblingRaised(c), t)) && sib == Root(SiblingRaised(c).sib)
      ensures heap.Keys == old(heap.Keys) && heap[NIL] == old(heap[NIL]) && heap[x].parent == c.ref
    {
      RaisesSibling(c, t);
      ghost var black := c.sib.(red := BLACK);
      SetColor(w, BLACK, Step(true, c.red, c.ref, c.entry, t, c.up), c.sib);
      Look(heap, root, c.(sib := black), t);
      SetColor(heap[x].parent, RED, c.up, Node(c.red, black, c.ref, c.entry, t));
      Look(heap, root, c.(sib := black, red := RED), t);
      RightRotate(heap[x].parent, c.up, Node(RED, black, c.ref, c.entry, t));
      Look(heap, root, SiblingRaised(c), t);
      sib := heap[heap[x].parent].left;
    }

    /** The far child of the black sibling is black, the near one red: turn the sibling. */
    method TurnRightSibling(x: Ref, w: Ref, ghost c: Ctx, ghost t: Tree) returns (sib: Ref)
      requires Shaped(heap, root, Plug(c, t)) && BlackShort(c, t) && c.Step? && c.onLeft && x == Root(t)
      requires c.sib.Node? && !c.sib.red && IsRed(c.sib.left) && !IsRed(c.sib.right) && w == c.sib.ref
      requires x in heap && heap[x].parent == c.ref
      modifies this`heap, this`root
      ensures Shaped(heap, root, Plug(SiblingTurned(c), t)) && sib == SiblingTurned(c).sib.ref
      ensures heap.Keys == old(heap.Keys) && heap[NIL] == old(heap[NIL]) && heap[x].parent == c.ref
    {
      TurnsSibling(c, t);
      ghost var cw := Step(false, c.red, c.ref, c.entry, t, c.up);
      ghost var ws := c.sib;
      Look(heap, root, cw, ws);
      SetColor(heap[w].left, BLACK, Step(true, ws.red, ws.ref, ws.entry, ws.right, cw), ws.left);
      ws := ws.(left := ws.left.(red := BLACK));
      SetColor(w, RED, cw, ws);
      RightRotate(w, cw, ws.(red := RED));
      Look(heap, root, SiblingTurned(c), t);
      sib := heap[heap[x].parent].right;
    }

    /** The far child of the black sibling is red: one rotation repairs the tree. */
    method BorrowFromRight(x: Ref, w: Ref, ghost c: Ctx, ghost t: Tree)
      requires Shaped(heap, root, Plug(c, t)) && BlackShort(c, t) && c.Step? && c.onLeft && !IsRed(t) && x == Root(t)
      requires c.sib.Node? && !c.sib.red && IsRed(c.sib.right) && w == c.sib.ref
      requires x in heap && heap[x].parent == c.ref
      modifies this`heap, this`root
      ensures Shaped(heap, root, Plug(c.up, Borrowed(c, t))) && heap.Keys == old(heap.Keys)
    {
      ghost var cw := Step(false, c.red, c.ref, c.entry, t, c.up);
      ghost var ws := c.sib;
      Look(heap, root, c, t);
      SetColor(w, heap[heap[x].parent].red, cw, ws);
      ws := ws.(red := c.red);
      Look(heap, root, c.(sib := ws), t);
      SetColor(heap[x].parent, BLACK, c.up, Node(c.red, t, c.ref, c.entry, ws));
      cw := cw.(red := BLACK);
      Look(heap, root, cw, ws);
      SetColor(heap[w].right, BLACK, Step(false, ws.red, ws.ref, ws.entry, ws.left, cw), ws.right);
      ws := ws.(right := ws.right.(red := BLACK));
      assert Shaped(heap, root, Plug(cw, ws));
      Look(heap, root, c.(sib := ws, red := BLACK), t);
      LeftRotate(heap[x].parent, c.up, Node(BLACK, t, c.ref, c.entry, ws));
    }

    /** One round of the delete loop with a black sibling: x is the left child of its parent. */
    method RepairWithRight(start: Ref, w0: Ref, ghost c0: Ctx, ghost t0: Tree)
      returns (x: Ref, ghost c: Ctx, ghost t: Tree)
      requires Shaped(heap, root, Plug(c0, t0)) && BlackShort(c0, t0) && c0.Step? && c0.onLeft && !IsRed(t0)
      requires start == Root(t0) && start in heap && heap[start].parent == c0.ref
      requires c0.sib.Node? && !c0.sib.red && w0 == c0.sib.ref
      modifies this`heap, this`root
      ensures Shaped(heap, root, Plug(c, t)) && BlackShort(c, t) && x == Root(t)
      ensures Entries(Plug(c, t)) == Entries(Plug(c0, t0)) && heap.Keys == old(heap.Keys)
      ensures t.Node? && (c == Top || (c == c0.up && t.red == c0.red))
    {
      x, c, t := start, c0, t0;
      var w := w0;
      ghost var cw := Step(false, c.red, c.ref, c.entry, t, c.up);
      Look(heap, root, cw, c.sib);
      Look(heap, root, Step(true, c.sib.red, c.sib.ref, c.sib.entry, c.sib.right, cw), c.sib.left);
      if !heap[heap[w].left].red && !heap[heap[w].right].red {
        PassesUp(c, t);
        SetColor(w, RED, cw, c.sib);
        Look(heap, root, c.(sib := c.sib.(red := RED)), t);
        x := heap[x].parent;
        c, t := c.up, Node(c.red, t, c.ref, c.entry, c.sib.(red := RED));
      } else {
        if !heap[heap[w].right].red {
          TurnsSibling(c, t);
          w := TurnRightSibling(x, w, c, t);
          c := SiblingTurned(c);
        }
        BorrowRepairs(c, t);
        BorrowFromRight(x, w, c, t);
        x := root;
        PlugRoot(c.up, Borrowed(c, t));
        c, t := Top, Plug(c.up, Borrowed(c, t));
      }
    }

    /** One round of the delete loop: x, black and not the root, is the left child of its parent. */
    method RepairShortLeft(start: Ref, ghost c0: Ctx, ghost t0: Tree) returns (x: Ref, ghost c: Ctx, ghost t: Tree)
      requires Shaped(heap, root, Plug(c0, t0)) && BlackShort(c0, t0) && c0.Step? && c0.onLeft && !IsRed(t0)
      requires start == Root(t0) && start in heap && heap[start].parent == c0.ref
      modifies this`heap, this`root
      ensures Shaped(heap, root, Plug(c, t)) && BlackShort(c, t) && x == Root(t)
      ensures x in heap && heap[x].parent == Parent(c)
      ensures Entries(Plug(c, t)) == Entries(Plug(c0, t0)) && heap.Keys == old(heap.Keys)
      ensures c.Top? || IsRed(t) || Depth(c) < Depth(c0)
    {
      x, c, t := start, c0, t0;
      ShortHasSibling(c, t);
      Look(heap, root, c, t);
      var w := heap[heap[x].parent].right;
      if heap[w].red {
        RaisesSibling(c, t);
        w := RaiseRightSibling(x, w, c, t);
        c := SiblingRaised(c);
        ShortHasSibling(c, t);
      }
      x, c, t := RepairWithRight(x, w, c, t);
      Look(heap, root, c, t);
    }

    /** The far child of the black sibling is black, the near one red: turn the sibling. */
    method TurnLeftSibling(x: Ref, w: Ref, ghost c: Ctx, ghost t: Tree) returns (sib: Ref)
      requires Shaped(heap, root, Plug(c, t)) && BlackShort(c, t) && c.Step? && !c.onLeft && x == Root(t)
      requires c.sib.Node? && !c.sib.red && IsRed(c.sib.right) && !IsRed(c.sib.left) && w == c.sib.ref
      requires x in heap && heap[x].parent == c.ref
      modifies this`heap, this`root
      ensures Shaped(heap, root, Plug(SiblingTurned(c), t)) && sib == SiblingTurned(c).sib.ref
      ensures heap.Keys == old(heap.Keys) && heap[NIL] == old(heap[NIL]) && heap[x].parent == c.ref
    {
      TurnsSibling(c, t);
      ghost var cw := Step(true, c.red, c.ref, c.entry, t, c.up);
      ghost var ws := c.sib;
      Look(heap, root, cw, ws);
      SetColor(heap[w].right, BLACK, Step(false, ws.red, ws.ref, ws.entry, ws.left, cw), ws.right);
      ws := ws.(right := ws.right.(red := BLACK));
      SetColor(w, RED, cw, ws);
      LeftRotate(w, cw, ws.(red := RED));
      Look(heap, root, SiblingTurned(c), t);
      sib := heap[heap[x].parent].left;
    }

    /** The far child of the black sibling is red: one rotation repairs the tree. */
    method BorrowFromLeft(x: Ref, w: Ref, ghost c: Ctx, ghost t: Tree)
      requires Shaped(heap, root, Plug(c, t)) && BlackShort(c, t) && c.Step? && !c.onLeft && !IsRed(t) && x == Root(t)
      requires c.sib.Node? && !c.sib.red && IsRed(c.sib.left) && w == c.sib.ref
      requires x in heap && heap[x].parent == c.ref
      modifies this`heap, this`root
      ensures Shaped(heap, root, Plug(c.up, Borrowed(c, t))) && heap.Keys == old(heap.Keys)
    {
      ghost var cw := Step(true, c.red, c.ref, c.entry, t, c.up);
      ghost var ws := c.sib;
      Look(heap, root, c, t);
      SetColor(w, heap[heap[x].parent].red, cw, ws);
      ws := ws.(red := c.red);
      Look(heap, root, c.(sib := ws), t);
      SetColor(heap[x].parent, BLACK, c.up, Node(c.red, ws, c.ref, c.entry, t));
      cw := cw.(red := BLACK);
      Look(heap, root, cw, ws);
      SetColor(heap[w].left, BLACK, Step(true, ws.red, ws.ref, ws.entry, ws.right, cw), ws.left);
      ws := ws.(left := ws.left.(red := BLACK));
      assert Shaped(heap, root, Plug(cw, ws));
      Look(heap, root, c.(sib := ws, red := BLACK), t);
      RightRotate(heap[x].parent, c.up, Node(BLACK, ws, c.ref, c.entry, t));
    }

    /** One round of the delete loop with a black sibling: x is the right child of its parent. */
    method RepairWithLeft(start: Ref, w0: Ref, ghost c0: Ctx, ghost t0: Tree)
      returns (x: Ref, ghost c: Ctx, ghost t: Tree)
      requires Shaped(heap, root, Plug(c0, t0)) && BlackShort(c0, t0) && c0.Step? && !c0.onLeft && !IsRed(t0)
      requires start == Root(t0) && start in heap && heap[start].parent == c0.ref
      requires c0.sib.Node? && !c0.sib.red && w0 == c0.sib.ref
      modifies this`heap, this`root
      ensures Shaped(heap, root, Plug(c, t)) && BlackShort(c, t) && x == Root(t)
      ensures Entries(Plug(c, t)) == Entries(Plug(c0, t0)) && heap.Keys == old(heap.Keys)
      ensures t.Node? && (c == Top || (c == c0.up && t.red == c0.red))
    {
      x, c, t := start, c0, t0;
      var w := w0;
      ghost var cw := Step(true, c.red, c.ref, c.entry, t, c.up);
      Look(heap, root, cw, c.sib);
      Look(heap, root, Step(false, c.sib.red, c.sib.ref, c.sib.entry, c.sib.left, cw), c.sib.right);
      if !heap[heap[w].right].red && !heap[heap[w].left].red {
        PassesUp(c, t);
        SetColor(w, RED, cw, c.sib);
        Look(heap, root, c.(sib := c.sib.(red := RED)), t);
        x := heap[x].parent;
        c, t := c.up, Node(c.red, c.sib.(red := RED), c.ref, c.entry, t);
      } else {
        if !heap[heap[w].left].red {
          TurnsSibling(c, t);
          w := TurnLeftSibling(x, w, c, t);
          c := SiblingTurned(c);
        }
        BorrowRepairs(c, t);
        BorrowFromLeft(x, w, c, t);
        x := root;
        PlugRoot(c.up, Borrowed(c, t));
        c, t := Top, Plug(c.up, Borrowed(c, t));
      }
    }

    /** One round of the delete loop: x, black and not the root, is the right child of its parent. */
    method RepairShortRight(start: Ref, ghost c0: Ctx, ghost t0: Tree) returns (x: Ref, ghost c: Ctx, ghost t: Tree)
      requires Shaped(heap, root, Plug(c0, t0)) && BlackShort(c0, t0) && c0.Step? && !c0.onLeft && !IsRed(t0)
      requires start == Root(t0) && start in heap && heap[start].parent == c0.ref
      modifies this`heap, this`root
      ensures Shaped(heap, root, Plug(c, t)) && BlackShort(c, t) && x == Root(t)
      ensures x in heap && heap[x].parent == Parent(c)
      ensures Entries(Plug(c, t)) == Entries(Plug(c0, t0)) && heap.Keys == old(heap.Keys)
      ensures c.Top? || IsRed(t) || Depth(c) < Depth(c0)
    {
      x, c, t := start, c0, t0;
      ShortHasSibling(c, t);
      Look(heap, root, c, t);
      var w := heap[heap[x].parent].left;
      if heap[w].red {
        RaisesSibling(c, t);
        w := RaiseLeftSibling(x, w, c, t);
        c := SiblingRaised(c);
        ShortHasSibling(c, t);
      }
      x, c, t := RepairWithLeft(x, w, c, t);
      Look(heap, root, c, t);
    }

    /** One round of the delete loop: x is black and not the root. */
    method RepairShort(start: Ref, ghost c0: Ctx, ghost t0: Tree) returns (x: Ref, ghost c: Ctx, ghost t: Tree)
      requires Shaped(heap, root, Plug(c0, t0)) && BlackShort(c0, t0) && c0.Step? && !IsRed(t0)
      requires start == Root(t0) && start in heap && heap[start].parent == c0.ref
      modifies this`heap, this`root
      ensures Shaped(heap, root, Plug(c, t)) && BlackShort(c, t) && x == Root(t)
      ensures x in heap && heap[x].parent == Parent(c)
      ensures Entries(Plug(c, t)) == Entries(Plug(c0, t0)) && heap.Keys == old(heap.Keys)
      ensures c.Top? || IsRed(t) || Depth(c) < Depth(c0)
    {
      ShortHasSibling(c0, t0);
      CanTest(heap, root, c0, t0);
      if start == heap[heap[start].parent].left {
        x, c, t := RepairShortLeft(start, c0, t0);
      } else {
        x, c, t := RepairShortRight(start, c0, t0);
      }
    }

    method DeleteFixup(start: Ref, ghost c0: Ctx, ghost t0: Tree)
      requires Shaped(heap, root, Plug(c0, t0)) && BlackShort(c0, t0)
      requires start == Root(t0) && start in heap && heap[start].parent == Parent(c0)
      modifies this`heap, this`root, this`shape
      ensures Shaped(heap, root, shape) && RB(shape) && !IsRed(shape)
      ensures Entries(shape) == Entries(Plug(c0, t0)) && heap.Keys == old(heap.Keys)
    {
      var x := start;
      ghost var c, t := c0, t0;
      CanTest(heap, root, c, t);
      while x != root && !heap[x].red
        invariant Shaped(heap, root, Plug(c, t)) && BlackShort(c, t)
        invariant x == Root(t) && x in heap && heap[x].parent == Parent(c)
        invariant (x == root <==> c.Top?) && (heap[x].red <==> IsRed(t))
        invariant Entries(Plug(c, t)) == Entries(Plug(c0, t0)) && heap.Keys == old(heap.Keys)
        decreases if c.Top? || IsRed(t) then 0 else 1 + Depth(c)
      {
        x, c, t := RepairShort(x, c, t);
        CanTest(heap, root, c, t);
      }
      ShortIsRepaired(c, t);
      BlackenShaped(heap, root, c, t);
      heap := heap[x := heap[x].(red := BLACK)];
      shape := Plug(c, Blacken(t));
    }

    /** The first half of deleteNode: link z out. x is what stands in the place of the node that is gone from there. */
    method LinkOut(z: Ref, ghost c: Ctx, ghost t: Tree) returns (x: Ref, yRed: bool, ghost cx: Ctx, ghost tx: Tree)
      requires Shaped(heap, root, Plug(c, t)) && RB(Plug(c, t)) && !IsRed(Plug(c, t))
      requires Sorted(desc, Keys(Entries(Plug(c, t)))) && t.Node? && z == t.ref
      modifies this`heap, this`root
      ensures Shaped(heap, root, Plug(cx, tx)) && TakenOut(cx, tx, yRed)
      ensures x == Root(tx) && x in heap && heap[x].parent == Parent(cx)
      ensures Entries(Plug(cx, tx)) == Drop(desc, Entries(Plug(c, t)), t.entry.key)
      ensures heap.Keys == old(heap.Keys)
    {
      KidIsThere(heap, root, c, t, true);
      KidIsThere(heap, root, c, t, false);
      Look(heap, root, c, t);
      yRed := heap[z].red;
      if heap[z].left == NIL {
        x := heap[z].right;
        NilIsLeaf(heap, root, c, t, true);
        TakeOutSingle(c, t, false);
        TakeOutSingleEntry(desc, c, t, false);
        TransplantKid(heap, root, c, t, false);
        Transplant(z, heap[z].right);
        cx, tx := c, t.right;
      } else if heap[z].right == NIL {
        x := heap[z].left;
        NilIsLeaf(heap, root, c, t, false);
        TakeOutSingle(c, t, true);
        TakeOutSingleEntry(desc, c, t, true);
        TransplantKid(heap, root, c, t, true);
        Transplant(z, heap[z].left);
        cx, tx := c, t.left;
      } else {
        x, yRed, cx, tx := ReplaceBySuccessor(z, c, t);
      }
    }

    method DeleteNode(z: Ref, ghost c: Ctx, ghost t: Tree)
      requires Valid() && Plug(c, t) == shape && t.Node? && z == t.ref
      modifies this
      ensures Valid() && Contents() == Drop(desc, old(Contents()), t.entry.key)
    {
      hide *;
      ValidParts();
      FindsAt(desc, c, t, t.entry.level);
      PutSorted(desc, Entries(shape), t.entry.key, t.entry.level);
      DropsOne(desc, Entries(shape), t.entry.key);
      var x, yRed, cx, tx := LinkOut(z, c, t);
      size := size - 1;
      if !yRed {
        DeleteFixup(x, cx, tx);
      } else {
        TakenOutRed(cx, tx);
        shape := Plug(cx, tx);
      }
      IsValid();
    }

    method Delete(key: real)
      requires Valid()
      modifies this
      ensures Valid() && Contents() == Drop(desc, old(Contents()), key)
    {
      var node, c, t := Search(key);
      if node == NIL {
        MissesAt(desc, c, key);
        return;
      }
      DeleteNode(node, c, t);
    }

    method Maximum(start: Ref) returns (node: Ref, ghost path: Ctx, ghost m: Tree)
      requires Shaped(heap, root, shape) && shape.Node? && start == root
      ensures Plug(path, m) == shape && Rightmost(path) && m.Node? && m.right.Leaf? && node == m.ref && node in heap
      ensures Depth(path) < Height(shape)
    {
      node, path, m := start, Top, shape;
      Look(heap, root, Top, shape);
      while heap[node].right != NIL
        invariant Plug(path, m) == shape && Rightmost(path) && m.Node? && node == m.ref && node in heap
        invariant heap[node].right == Root(m.right)
        decreases m
      {
        node, path, m := heap[node].right, Step(false, m.red, m.ref, m.entry, m.left, path), m.right;
        Look(heap, root, path, m);
      }
      Look(heap, root, path, m);
      Look(heap, root, Step(false, m.red, m.ref, m.entry, m.left, path), m.right);
      PlugHeight(path, m);
    }

    /** The level with the smallest price: in a descending tree it is the last one. steps counts the nodes on the
        way. */
    method Min() returns (level: PriceLevel?, ghost steps: nat)
      requires Valid()
      ensures size >= 0 && steps <= 2 * Log2(size + 1)
      ensures level == if Contents() == [] then null
                       else if desc then Contents()[|Contents()| - 1].level else Contents()[0].level
    {
      IsShallow();
      Look(heap, root, Top, shape);
      if root == NIL {
        return null, 0;
      }
      if desc {
        var node, path, m := Maximum(root);
        EndOfPath(path, m);
        Look(heap, root, path, m);
        return heap[node].value, Depth(path) + 1;
      }
      var node, path, m := Minimum(root, Top, shape);
      EndOfPath(path, m);
      Look(heap, root, path, m);
      return heap[node].value, Depth(path) + 1;
    }

    /** The level with the largest price: in a descending tree it is the first one. steps counts the nodes on the
        way. */
    method Max() returns (level: PriceLevel?, ghost steps: nat)
      requires Valid()
      ensures size >= 0 && steps <= 2 * Log2(size + 1)
      ensures level == if Contents() == [] then null
                       else if desc then Contents()[0].level else Contents()[|Contents()| - 1].level
    {
      IsShallow();
      Look(heap, root, Top, shape);
      if root == NIL {
        return null, 0;
      }
      if desc {
        var node, path, m := Minimum(root, Top, shape);
        EndOfPath(path, m);
        Look(heap, root, path, m);
        return heap[node].value, Depth(path) + 1;
      }
      var node, path, m := Maximum(root);
      EndOfPath(path, m);
      Look(heap, root, path, m);
      return heap[node].value, Depth(path) + 1;
    }

    function Size(): int
      reads this
    {
      size
    }

    /** In-order traversal from one node, until the callback says no. */
    function AscendFrom<A>(node: Ref, f: (A, Sight) -> (A, bool), init: A, ghost c: Ctx, ghost t: Tree): (r: (A, bool))
      requires Shaped(heap, root, Plug(c, t)) && node == Root(t)
      reads this, (set e | e in Entries(t) :: e.level), set e, x | e in Entries(t) && x in e.level.Orders :: x.order
      ensures r == Visit(f, init, Sights(Entries(t)))
      decreases t
    {
      NodeAt(heap, root, c, t);
      VisitNothing(f, init, t);
      if node == NIL then (init, true)
      else
        VisitNode(f, init, t);
        var l := AscendFrom(heap[node].left, f, init, Step(true, t.red, t.ref, t.entry, t.right, c), t.left);
        if !l.1 then (l.0, false)
        else
          var r := f(l.0, Sight(heap[node].key, heap[node].value.View()));
          if !r.1 then (r.0, false)
          else AscendFrom(heap[node].right, f, r.0, Step(false, t.red, t.ref, t.entry, t.left, c), t.right)
    }

    /** Visits the price levels, best price first. */
    function Ascend<A>(f: (A, Sight) -> (A, bool), init: A): (a: A)
      requires Valid()
      reads this, (set e | e in Contents() :: e.level), set e, x | e in Contents() && x in e.level.Orders :: x.order
      ensures a == Visit(f, init, Sights(Contents())).0
    {
      AscendFrom(root, f, init, Top, shape).0
    }
  }
}
