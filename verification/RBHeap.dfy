/** Nodes in memory: a table of cells addressed by Ref, the links a tree shape demands of it, and what the program's
    pointer updates do to it. */
module RBHeap {
  import opened Levels
  import opened RBShape

  datatype Cell = Cell(key: real, value: PriceLevel?, red: bool, left: Ref, right: Ref, parent: Ref)

  type Heap = map<Ref, Cell>

  ghost function Nodes(t: Tree): set<Ref> {
    match t
    case Leaf => {}
    case Node(_, l, n, _, r) => Nodes(l) + {n} + Nodes(r)
  }

  ghost function CtxNodes(c: Ctx): set<Ref> {
    match c
    case Top => {}
    case Step(_, _, n, _, sib, up) => {n} + Nodes(sib) + CtxNodes(up)
  }

  ghost predicate Distinct(t: Tree) {
    match t
    case Leaf => true
    case Node(_, l, n, _, r) => n !in Nodes(l) && n !in Nodes(r) && Nodes(l) !! Nodes(r) && Distinct(l) && Distinct(r)
  }

  ghost predicate DistinctCtx(c: Ctx) {
    match c
    case Top => true
    case Step(_, _, n, _, sib, up) =>
      n !in Nodes(sib) && n !in CtxNodes(up) && Nodes(sib) !! CtxNodes(up) && Distinct(sib) && DistinctCtx(up)
  }

  lemma {:induction false} PlugNodes(c: Ctx, t: Tree)
    ensures Nodes(Plug(c, t)) == Nodes(t) + CtxNodes(c)
    ensures Distinct(Plug(c, t)) <==> Distinct(t) && DistinctCtx(c) && Nodes(t) !! CtxNodes(c)
  {
    match c
    case Top =>
    case Step(onLeft, red, n, e, sib, up) =>
      PlugNodes(up, Join(onLeft, red, t, n, e, sib));
  }

  ghost function Root(t: Tree): Ref { if t.Leaf? then NIL else t.ref }

  ghost function Parent(c: Ctx): Ref { if c.Top? then NIL else c.ref }

  ghost function CellOf(t: Tree, p: Ref, n: Ref): Cell
    requires n in Nodes(t)
  {
    if n == t.ref then Cell(t.entry.key, t.entry.level, t.red, Root(t.left), Root(t.right), p)
    else if n in Nodes(t.left) then CellOf(t.left, t.ref, n)
    else CellOf(t.right, t.ref, n)
  }

  ghost function CtxCell(c: Ctx, hole: Ref, n: Ref): Cell
    requires n in CtxNodes(c)
  {
    if n == c.ref then
      Cell(c.entry.key, c.entry.level, c.red, if c.onLeft then hole else Root(c.sib),
           if c.onLeft then Root(c.sib) else hole, Parent(c.up))
    else if n in Nodes(c.sib) then CellOf(c.sib, c.ref, n)
    else CtxCell(c.up, c.ref, n)
  }

  ghost function TopRef(c: Ctx, n: Ref): Ref { if c.Top? then n else TopRef(c.up, c.ref) }

  lemma {:induction false} PlugCell(c: Ctx, t: Tree, n: Ref)
    requires Distinct(Plug(c, t)) && n in Nodes(Plug(c, t))
    ensures n in Nodes(t) || n in CtxNodes(c)
    ensures n in Nodes(t) ==> CellOf(Plug(c, t), NIL, n) == CellOf(t, Parent(c), n)
    ensures n in CtxNodes(c) ==> CellOf(Plug(c, t), NIL, n) == CtxCell(c, Root(t), n)
  {
    PlugNodes(c, t);
    match c
    case Top =>
    case Step(onLeft, red, r, e, sib, up) =>
      PlugNodes(up, Join(onLeft, red, t, r, e, sib));
      PlugCell(up, Join(onLeft, red, t, r, e, sib), n);
  }

  lemma {:induction false} PlugRoot(c: Ctx, t: Tree)
    ensures Root(Plug(c, t)) == TopRef(c, Root(t))
    ensures Plug(c, t).Leaf? <==> c.Top? && t.Leaf?
  {
    match c
    case Top =>
    case Step(onLeft, red, r, e, sib, up) => PlugRoot(up, Join(onLeft, red, t, r, e, sib));
  }

  function Kid(t: Tree, left: bool): Tree
    requires t.Node?
  {
    if left then t.left else t.right
  }

  /** Rotate t to the left (or right): the other child y rises and t's root becomes its left (or right) child. */
  function Rotate(left: bool, t: Tree): Tree
    requires t.Node? && Kid(t, !left).Node?
  {
    var y := Kid(t, !left);
    Join(left, y.red, Join(!left, t.red, Kid(y, left), t.ref, t.entry, Kid(t, left)), y.ref, y.entry, Kid(y, !left))
  }

  /** Moving a subtree under another parent only touches the parent link of its root. */
  lemma {:induction false} Reparent(t: Tree, p: Ref, q: Ref, n: Ref)
    requires n in Nodes(t)
    ensures CellOf(t, q, n) == if n == t.ref then CellOf(t, p, n).(parent := q) else CellOf(t, p, n)
  {
  }

  ghost function Redirect(c: Ctx, v: Ref, n: Ref, cell: Cell): Cell {
    if c.Top? || n != c.ref then cell else SetKid(cell, c.onLeft, v)
  }

  lemma RotateNodes(left: bool, t: Tree)
    requires Distinct(t) && t.Node? && Kid(t, !left).Node?
    ensures Distinct(Rotate(left, t)) && Nodes(Rotate(left, t)) == Nodes(t)
  {
    var y, l := Kid(t, !left), Kid(Rotate(left, t), left);
    assert Distinct(y) && Nodes(y) == Nodes(y.left) + {y.ref} + Nodes(y.right);
    assert Nodes(l) == Nodes(l.left) + {t.ref} + Nodes(l.right);
    assert Distinct(l);
  }

  ghost function SetKid(cell: Cell, left: bool, v: Ref): Cell { if left then cell.(left := v) else cell.(right := v) }

  ghost function RotatedCell(left: bool, t: Tree, p: Ref, n: Ref, o: Cell): Cell
    requires t.Node? && Kid(t, !left).Node?
  {
    var y := Kid(t, !left);
    var b := Kid(y, left);
    if n == t.ref then SetKid(o, !left, Root(b)).(parent := y.ref)
    else if n == y.ref then SetKid(o, left, t.ref).(parent := p)
    else if b.Node? && n == b.ref then o.(parent := t.ref)
    else o
  }

  lemma RotateCells(left: bool, t: Tree, p: Ref, n: Ref)
    requires Distinct(t) && t.Node? && Kid(t, !left).Node? && n in Nodes(t)
    ensures n in Nodes(Rotate(left, t))
    ensures CellOf(Rotate(left, t), p, n) == RotatedCell(left, t, p, n, CellOf(t, p, n))
  {
    RotateNodes(left, t);
    var y, l := Kid(t, !left), Kid(Rotate(left, t), left);
    assert Nodes(y) == Nodes(y.left) + {y.ref} + Nodes(y.right);
    assert Nodes(l) == Nodes(l.left) + {t.ref} + Nodes(l.right);
    if n in Nodes(Kid(y, left)) { Reparent(Kid(y, left), y.ref, t.ref, n); }
  }

  /** Putting another subtree into a hole only touches one child link outside of it. */
  lemma Graft(c: Ctx, t: Tree, v: Tree, n: Ref)
    requires Distinct(Plug(c, t)) && Distinct(Plug(c, v)) && n in CtxNodes(c)
    ensures n in Nodes(Plug(c, t)) && n in Nodes(Plug(c, v)) && n !in Nodes(t) && n !in Nodes(v)
    ensures CellOf(Plug(c, v), NIL, n) == Redirect(c, Root(v), n, CellOf(Plug(c, t), NIL, n))
  {
    PlugNodes(c, t);
    PlugNodes(c, v);
    PlugCell(c, t, n);
    PlugCell(c, v, n);
    assert DistinctCtx(c);
  }

  lemma RotateInPlace(left: bool, c: Ctx, t: Tree, n: Ref)
    requires Distinct(Plug(c, t)) && t.Node? && Kid(t, !left).Node? && n in Nodes(Plug(c, t))
    ensures Distinct(Plug(c, Rotate(left, t))) && n in Nodes(Plug(c, Rotate(left, t)))
    ensures CellOf(Plug(c, Rotate(left, t)), NIL, n) ==
      Redirect(c, Kid(t, !left).ref, n,
               RotatedCell(left, t, Parent(c), n, CellOf(Plug(c, t), NIL, n)))
  {
    PlugNodes(c, t);
    PlugNodes(c, Rotate(left, t));
    RotateNodes(left, t);
    if n in Nodes(t) {
      PlugCell(c, t, n);
      RotateCells(left, t, Parent(c), n);
      PlugCell(c, Rotate(left, t), n);
    } else {
      Graft(c, t, Rotate(left, t), n);
    }
  }

  /** The heap holds exactly the tree t, under the given root and around a black sentinel. */
  ghost predicate Shaped(h: Heap, root: Ref, t: Tree) {
    && Distinct(t) && NIL !in Nodes(t) && root == Root(t)
    && NIL in h && h[NIL].red == BLACK && h[NIL].left == NIL && h[NIL].right == NIL
    && forall n <- Nodes(t) :: n in h && h[n] == CellOf(t, NIL, n)
  }

  /** What the heap holds at the hole of c and just above it. */
  lemma Look(h: Heap, root: Ref, c: Ctx, t: Tree)
    requires Shaped(h, root, Plug(c, t))
    ensures root == TopRef(c, Root(t))
    ensures t.Node? ==>
      t.ref != NIL && t.ref in h && h[t.ref] == CellOf(t, Parent(c), t.ref)
    ensures c.Step? ==>
      c.ref != NIL && c.ref in h && h[c.ref] == CtxCell(c, Root(t), c.ref) && c.ref != Root(t) && c.ref != Root(c.sib)
    ensures c.Step? && c.sib.Node? ==>
      c.sib.ref != NIL && c.sib.ref in h && c.sib.ref != Root(t) && h[c.sib.ref] == CellOf(c.sib, c.ref, c.sib.ref)
  {
    PlugRoot(c, t);
    PlugNodes(c, t);
    if t.Node? { PlugCell(c, t, t.ref); }
    if c.Step? { PlugCell(c, t, c.ref); }
    if c.Step? && c.sib.Node? { PlugCell(c, t, c.sib.ref); }
  }

  // ------------------------------------------------------------------ rotations in the heap

  ghost function KidOf(cell: Cell, left: bool): Ref { if left then cell.left else cell.right }

  /** The cells that a rotation at x involves, and that they are different cells. */
  ghost predicate Rotatable(left: bool, h: Heap, x: Ref) {
    && x in h && x != NIL && KidOf(h[x], !left) in h
    && var y := KidOf(h[x], !left);
       var b, p := KidOf(h[y], left), h[x].parent;
       && y != NIL && x != y && b in h && p in h
       && b != x && b != y && p != x && p != y && (p == b ==> p == NIL)
       && (p != NIL ==> (h[p].left == x) != (h[p].right == x))
  }

  ghost function Relinked(h: Heap, p: Ref, u: Ref, v: Ref): Heap {
    if p == NIL || p !in h then h else h[p := SetKid(h[p], h[p].left == u, v)]
  }

  /** The pointer updates of a rotation at x, in the program's order. */
  ghost function RotatedHeap(left: bool, h: Heap, x: Ref): Heap
    requires Rotatable(left, h, x)
  {
    var y := KidOf(h[x], !left);
    var b, p := KidOf(h[y], left), h[x].parent;
    var h1 := h[x := SetKid(h[x], !left, b)];
    var h2 := if b != NIL then h1[b := h1[b].(parent := x)] else h1;
    var h3 := Relinked(h2[y := h2[y].(parent := p)], p, x, y);
    var h4 := h3[y := SetKid(h3[y], left, x)];
    h4[x := h4[x].(parent := y)]
  }

  /** Every cell after a rotation at x, in terms of the same cell before. */
  lemma RotatedCells(left: bool, h: Heap, x: Ref, n: Ref)
    requires Rotatable(left, h, x) && n in h && NIL in h
    ensures RotatedHeap(left, h, x).Keys == h.Keys
    ensures var y := KidOf(h[x], !left);
      var b, p := KidOf(h[y], left), h[x].parent;
      RotatedHeap(left, h, x)[n] ==
        if n == x then SetKid(h[n], !left, b).(parent := y)
        else if n == y then SetKid(h[n], left, x).(parent := p)
        else if n == NIL then h[n]
        else if n == b then h[n].(parent := x)
        else if n == p then SetKid(h[n], h[n].left == x, y)
        else h[n]
  {
  }

  ghost function RotatedRoot(left: bool, h: Heap, root: Ref, x: Ref): Ref
    requires Rotatable(left, h, x)
  {
    if h[x].parent == NIL then KidOf(h[x], !left) else root
  }

  lemma RotationApart(left: bool, c: Ctx, t: Tree)
    requires Distinct(Plug(c, t)) && NIL !in Nodes(Plug(c, t)) && t.Node? && Kid(t, !left).Node?
    ensures var x, y, b, p := t.ref, Kid(t, !left).ref, Root(Kid(Kid(t, !left), left)), Parent(c);
      x != y && b != x && b != y && p != x && p != y && (p == b ==> p == NIL)
  {
    PlugNodes(c, t);
    var y := Kid(t, !left);
    assert {y.ref} + Nodes(Kid(y, left)) <= Nodes(y) <= Nodes(t);
    if Kid(y, left).Node? { assert Kid(y, left).ref in Nodes(Kid(y, left)); }
    if c.Step? { assert c.ref in CtxNodes(c); }
  }

  lemma CanRotate(left: bool, h: Heap, root: Ref, c: Ctx, t: Tree)
    requires Shaped(h, root, Plug(c, t)) && t.Node? && Kid(t, !left).Node?
    ensures var y := Kid(t, !left);
      && Rotatable(left, h, t.ref)
      && KidOf(h[t.ref], !left) == y.ref && KidOf(h[y.ref], left) == Root(Kid(y, left)) && h[t.ref].parent == Parent(c)
      && (c.Step? ==> h[c.ref].left == if c.onLeft then t.ref else Root(c.sib))
      && (c.Step? ==> Root(c.sib) != t.ref)
      && root == TopRef(c, t.ref)
  {
    var y := Kid(t, !left);
    var cy := Step(!left, t.red, t.ref, t.entry, Kid(t, left), c);
    RotationApart(left, c, t);
    Look(h, root, c, t);
    Look(h, root, cy, y);
    Look(h, root, Step(left, y.red, y.ref, y.entry, Kid(y, !left), cy), Kid(y, left));
  }

  lemma RotateShaped(left: bool, h: Heap, root: Ref, c: Ctx, t: Tree)
    requires Shaped(h, root, Plug(c, t)) && t.Node? && Kid(t, !left).Node?
    ensures Rotatable(left, h, t.ref)
    ensures Shaped(RotatedHeap(left, h, t.ref), RotatedRoot(left, h, root, t.ref), Plug(c, Rotate(left, t)))
    ensures RotatedHeap(left, h, t.ref).Keys == h.Keys && RotatedHeap(left, h, t.ref)[NIL] == h[NIL]
  {
    CanRotate(left, h, root, c, t);
    RotatedCells(left, h, t.ref, NIL);
    PlugNodes(c, t);
    PlugNodes(c, Rotate(left, t));
    RotateNodes(left, t);
    PlugRoot(c, Rotate(left, t));
    forall n | n in Nodes(Plug(c, t))
      ensures RotatedHeap(left, h, t.ref)[n] == CellOf(Plug(c, Rotate(left, t)), NIL, n)
    {
      RotateInPlace(left, c, t, n);
      RotatedCells(left, h, t.ref, n);
    }
  }

  /** Conditions on single cells under which subtree v has taken the place of t. */
  lemma GraftShaped(h: Heap, root: Ref, c: Ctx, t: Tree, v: Tree, h': Heap, root': Ref)
    requires Shaped(h, root, Plug(c, t)) && Distinct(v) && Nodes(v) !! CtxNodes(c) && NIL !in Nodes(v)
    requires forall n <- Nodes(v) :: n in h' && h'[n] == CellOf(v, Parent(c), n)
    requires forall n <- CtxNodes(c) :: n in h' && n in h && h'[n] == Redirect(c, Root(v), n, h[n])
    requires NIL in h' && h'[NIL].red == BLACK && h'[NIL].left == NIL && h'[NIL].right == NIL
    requires root' == if c.Top? then Root(v) else root
    ensures Shaped(h', root', Plug(c, v))
  {
    PlugNodes(c, t);
    PlugNodes(c, v);
    PlugRoot(c, t);
    PlugRoot(c, v);
    forall n | n in Nodes(Plug(c, v))
      ensures n in h' && h'[n] == CellOf(Plug(c, v), NIL, n)
    {
      PlugCell(c, v, n);
      if n in CtxNodes(c) { Graft(c, t, v, n); }
    }
  }

  lemma OnlyRootIsOnTop(h: Heap, root: Ref, c: Ctx, t: Tree)
    requires Shaped(h, root, Plug(c, t))
    ensures Root(t) == root <==> c.Top?
  {
    PlugRoot(c, t);
    Look(h, root, c, t);
    Look(h, root, Top, Plug(c, t));
  }

  /** What the program can test about the subtree at hand. */
  lemma CanTest(h: Heap, root: Ref, c: Ctx, t: Tree)
    requires Shaped(h, root, Plug(c, t))
    ensures Root(t) in h && (Root(t) == root <==> c.Top?) && (h[Root(t)].red <==> IsRed(t))
    ensures c.Step? && c.sib.Node? ==> c.ref in h && (h[c.ref].left == Root(t) <==> c.onLeft)
  {
    OnlyRootIsOnTop(h, root, c, t);
    Look(h, root, c, t);
  }

  lemma BlackenShaped(h: Heap, root: Ref, c: Ctx, t: Tree)
    requires Shaped(h, root, Plug(c, t))
    ensures Root(t) in h && Shaped(h[Root(t) := h[Root(t)].(red := BLACK)], root, Plug(c, Blacken(t)))
  {
    Look(h, root, c, t);
    if t.Node? { RepaintShaped(h, root, c, t, BLACK, t.entry.level); }
  }

  /** Overwriting a node's colour and value changes nothing else of the tree. */
  lemma RepaintShaped(h: Heap, root: Ref, c: Ctx, t: Tree, color: bool, level: PriceLevel)
    requires Shaped(h, root, Plug(c, t)) && t.Node?
    ensures t.ref in h
    ensures Shaped(h[t.ref := h[t.ref].(red := color, value := level)], root,
                   Plug(c, t.(red := color, entry := Entry(t.entry.key, level))))
  {
    var v := t.(red := color, entry := Entry(t.entry.key, level));
    Look(h, root, c, t);
    PlugNodes(c, t);
    PlugNodes(c, v);
    PlugRoot(c, v);
    forall n | n in Nodes(Plug(c, v))
      ensures n in h[t.ref := h[t.ref].(red := color, value := level)]
      ensures h[t.ref := h[t.ref].(red := color, value := level)][n] == CellOf(Plug(c, v), NIL, n)
    {
      PlugCell(c, t, n);
      PlugCell(c, v, n);
    }
  }

  // ------------------------------------------------------------------ transplants in the heap

  /** The pointer updates of transplanting v into the place of u, in the program's order. */
  ghost function Transplanted(h: Heap, u: Ref, v: Ref): Heap
    requires u in h && v in h
  {
    var h1 := Relinked(h, h[u].parent, u, v);
    h1[v := h1[v].(parent := h[u].parent)]
  }

  /** Relinking the parent redirects the one link that leads into the hole. */
  lemma RelinkRedirects(h: Heap, root: Ref, c: Ctx, t: Tree, v: Ref, n: Ref)
    requires Shaped(h, root, Plug(c, t)) && t.Node? && n in CtxNodes(c)
    ensures n in h && n != NIL && n !in Nodes(t)
    ensures Relinked(h, Parent(c), t.ref, v)[n] == Redirect(c, v, n, h[n])
  {
    PlugNodes(c, t);
    Look(h, root, c, t);
  }

  lemma KidCells(h: Heap, root: Ref, c: Ctx, t: Tree, left: bool, n: Ref)
    requires Shaped(h, root, Plug(c, t)) && t.Node? && n in Nodes(Kid(t, left))
    ensures n in h && n != NIL && n != t.ref && n !in CtxNodes(c) && h[n] == CellOf(Kid(t, left), t.ref, n)
  {
    PlugNodes(c, t);
    PlugCell(c, t, n);
  }

  lemma KidIsThere(h: Heap, root: Ref, c: Ctx, t: Tree, left: bool)
    requires Shaped(h, root, Plug(c, t)) && t.Node?
    ensures t.ref in h && h[t.ref].parent == Parent(c) && Parent(c) in h && Parent(c) != t.ref
    ensures Root(Kid(t, left)) in h && Root(Kid(t, left)) == KidOf(h[t.ref], left) && Root(Kid(t, left)) != t.ref
    ensures Parent(c) == Root(Kid(t, left)) ==> Parent(c) == NIL
  {
    var v := Kid(t, left);
    PlugNodes(c, t);
    Look(h, root, c, t);
    Look(h, root, Step(left, t.red, t.ref, t.entry, Kid(t, !left), c), v);
    assert c.Step? ==> c.ref in CtxNodes(c);
    assert v.Node? ==> v.ref in Nodes(v);
  }

  /** A node with one missing child is replaced by its other child, be it a node or the sentinel. */
  lemma TransplantKid(h: Heap, root: Ref, c: Ctx, t: Tree, left: bool)
    requires Shaped(h, root, Plug(c, t)) && t.Node? && t.ref in h && Root(Kid(t, left)) in h
    ensures var v, h' := Kid(t, left), Transplanted(h, t.ref, Root(Kid(t, left)));
      && Shaped(h', if c.Top? then Root(v) else root, Plug(c, v))
      && h'.Keys == h.Keys && h'[Root(v)].parent == Parent(c) && h'[t.ref] == h[t.ref]
  {
    var v := Kid(t, left);
    var h' := Transplanted(h, t.ref, Root(v));
    KidIsThere(h, root, c, t, left);
    PlugNodes(c, t);
    forall n | n in Nodes(v)
      ensures n in h' && h'[n] == CellOf(v, Parent(c), n)
    {
      KidCells(h, root, c, t, left, n);
      Reparent(v, t.ref, Parent(c), n);
      assert n != Parent(c) by { if c.Step? { assert c.ref in CtxNodes(c); } }
    }
    forall n | n in CtxNodes(c)
      ensures n in h' && n in h && h'[n] == Redirect(c, Root(v), n, h[n])
    {
      RelinkRedirects(h, root, c, t, Root(v), n);
      assert n != Root(v) by { if v.Node? { assert v.ref in Nodes(t); } }
    }
    GraftShaped(h, root, c, t, v, h', if c.Top? then Root(v) else root);
  }

  /** Deletion's last steps: y takes the place, the left child and the colour of z. */
  ghost function Seated(h: Heap, z: Ref, y: Ref): Heap
    requires z in h && y in h && h[z].left in h
  {
    var h1 := Transplanted(h, z, y);
    var h2 := h1[y := h1[y].(left := h1[z].left)];
    var h3 := h2[h2[y].left := h2[h2[y].left].(parent := y)];
    h3[y := h3[y].(red := h3[z].red)]
  }

  lemma SeatedCells(h: Heap, z: Ref, y: Ref, n: Ref)
    requires z in h && y in h && h[z].left in h && n in h && z != y && h[z].parent in h
    requires h[z].left !in {z, y, h[z].parent} && h[z].parent !in {z, y}
    ensures Seated(h, z, y).Keys == h.Keys
    ensures Seated(h, z, y)[n] ==
      if n == y then h[n].(parent := h[z].parent, left := h[z].left, red := h[z].red)
      else if n == h[z].left then h[n].(parent := y)
      else Relinked(h, h[z].parent, z, y)[n]
  {
  }

  /** In h, the tree Plug(c, t) is still there but for t's right subtree, and y is ready to replace t's node. */
  ghost predicate CanSeat(was: Heap, h: Heap, root: Ref, c: Ctx, t: Tree, v: Tree) {
    && Shaped(was, root, Plug(c, t)) && t.Node? && t.left.Node?
    && v.Node? && v.left == t.left && v.red == t.red && v.ref != t.ref
    && Distinct(v) && Nodes(v) !! CtxNodes(c) && NIL !in Nodes(v)
    && (forall n <- was :: n in h)
    && (forall n <- was :: n == t.ref || n in Nodes(t.left) || n in CtxNodes(c) ==> h[n] == was[n])
    && (NIL in h && h[NIL].red == BLACK && h[NIL].left == NIL && h[NIL].right == NIL)
    && (forall n <- Nodes(v.right) :: n in h && h[n] == CellOf(v.right, v.ref, n))
    && v.ref in h && h[v.ref].key == v.entry.key && h[v.ref].value == v.entry.level && h[v.ref].right == Root(v.right)
  }

  lemma SeatApart(was: Heap, h: Heap, root: Ref, c: Ctx, t: Tree, v: Tree)
    requires CanSeat(was, h, root, c, t, v)
    ensures t.ref in h && t.left.ref in h && Parent(c) in h
    ensures h[t.ref].red == t.red && h[t.ref].left == t.left.ref && h[t.ref].parent == Parent(c)
    ensures t.left.ref !in {t.ref, v.ref, Parent(c)} && Parent(c) !in {t.ref, v.ref} && t.left.ref != NIL
    ensures t.ref !in Nodes(v.left) && t.left.ref in Nodes(v.left) && Parent(c) !in Nodes(v)
  {
    KidIsThere(was, root, c, t, true);
    Look(was, root, c, t);
    PlugNodes(c, t);
    assert v.left.ref in Nodes(v.left);
    assert c.Step? ==> c.ref in CtxNodes(c);
  }

  lemma SeatInside(was: Heap, h: Heap, root: Ref, c: Ctx, t: Tree, v: Tree, n: Ref)
    requires CanSeat(was, h, root, c, t, v) && n in Nodes(v)
    ensures t.ref in h && h[t.ref].left in h && n in h
    ensures n in Seated(h, t.ref, v.ref) && Seated(h, t.ref, v.ref)[n] == CellOf(v, Parent(c), n)
  {
    SeatApart(was, h, root, c, t, v);
    if n in Nodes(v.left) {
      KidCells(was, root, c, t, true, n);
      Reparent(v.left, t.ref, v.ref, n);
    }
    SeatedCells(h, t.ref, v.ref, n);
  }

  lemma SeatOutside(was: Heap, h: Heap, root: Ref, c: Ctx, t: Tree, v: Tree, n: Ref)
    requires CanSeat(was, h, root, c, t, v) && n in CtxNodes(c)
    ensures t.ref in h && h[t.ref].left in h && n in h && n in was
    ensures n in Seated(h, t.ref, v.ref) && Seated(h, t.ref, v.ref)[n] == Redirect(c, v.ref, n, was[n])
  {
    SeatApart(was, h, root, c, t, v);
    RelinkRedirects(was, root, c, t, v.ref, n);
    SeatedCells(h, t.ref, v.ref, n);
  }

  lemma SeatShaped(was: Heap, h: Heap, root: Ref, c: Ctx, t: Tree, v: Tree)
    requires CanSeat(was, h, root, c, t, v)
    ensures t.ref in h && h[t.ref].left in h
    ensures Shaped(Seated(h, t.ref, v.ref), if c.Top? then v.ref else root, Plug(c, v))
    ensures Seated(h, t.ref, v.ref).Keys == h.Keys && Seated(h, t.ref, v.ref)[NIL] == h[NIL]
  {
    SeatApart(was, h, root, c, t, v);
    SeatedCells(h, t.ref, v.ref, NIL);
    forall n | n in Nodes(v)
      ensures n in Seated(h, t.ref, v.ref) && Seated(h, t.ref, v.ref)[n] == CellOf(v, Parent(c), n)
    {
      SeatInside(was, h, root, c, t, v, n);
    }
    forall n | n in CtxNodes(c)
      ensures n in Seated(h, t.ref, v.ref) && n in was && Seated(h, t.ref, v.ref)[n] == Redirect(c, v.ref, n, was[n])
    {
      SeatOutside(was, h, root, c, t, v, n);
    }
    GraftShaped(was, root, c, t, v, Seated(h, t.ref, v.ref), if c.Top? then v.ref else root);
  }

  lemma SeatNear(c: Ctx, t: Tree)
    requires Distinct(Plug(c, t)) && NIL !in Nodes(Plug(c, t)) && t.Node? && t.right.Node? && t.right.left.Leaf?
    ensures var y := t.right;
      var v := Node(t.red, t.left, y.ref, y.entry, y.right);
      && y.ref != t.ref && Distinct(v) && Nodes(v) !! CtxNodes(c) && NIL !in Nodes(v)
      && t.ref !in Nodes(y.right) && y.ref !in Nodes(t.left) && y.ref !in CtxNodes(c) && y.ref != NIL
      && Nodes(y.right) !! Nodes(t.left) && Nodes(y.right) !! CtxNodes(c)
      && Root(y.right) !in {t.ref, y.ref} && Root(y.right) !in Nodes(t.left) && Root(y.right) !in CtxNodes(c)
  {
    PlugNodes(c, t);
    var y := t.right;
    assert Nodes(y) == {y.ref} + Nodes(y.right) && Distinct(y);
    assert y.right.Node? ==> y.right.ref in Nodes(y.right);
    assert NIL !in Nodes(t) && NIL !in CtxNodes(c);
  }

  /** The successor y is z's own right child: only its right child's parent link (maybe the sentinel's) is rewritten. */
  lemma CanSeatNear(h: Heap, root: Ref, c: Ctx, t: Tree)
    requires Shaped(h, root, Plug(c, t)) && t.Node? && t.left.Node? && t.right.Node? && t.right.left.Leaf?
    ensures var y := t.right;
      var x := Root(y.right);
      && x in h && CanSeat(h, h[x := h[x].(parent := y.ref)], root, c, t, Node(t.red, t.left, y.ref, y.entry, y.right))
  {
    hide *;
    ShapedParts(h, root, Plug(c, t));
    SeatNear(c, t);
    SuccessorCells(h, root, c, t);
    NearIsReady(h, root, c, t);
  }

  lemma ShapedParts(h: Heap, root: Ref, t: Tree)
    requires Shaped(h, root, t)
    ensures Distinct(t) && NIL !in Nodes(t) && NIL in h && h[NIL].red == BLACK && h[NIL].left == NIL
    ensures h[NIL].right == NIL
  {
  }

  /** The cells of z's right child and of what hangs to its right. */
  lemma SuccessorCells(h: Heap, root: Ref, c: Ctx, t: Tree)
    requires Shaped(h, root, Plug(c, t)) && t.Node? && t.right.Node? && t.right.left.Leaf?
    ensures var y := t.right;
      && y.ref in h && h[y.ref].key == y.entry.key && h[y.ref].value == y.entry.level && h[y.ref].right == Root(y.right)
      && Root(y.right) in h && (Root(y.right) != NIL ==> h[Root(y.right)].parent == y.ref)
    ensures forall n <- Nodes(t.right.right) :: n in h && h[n] == CellOf(t.right.right, t.right.ref, n)
  {
    var y := t.right;
    var cy := Step(false, t.red, t.ref, t.entry, t.left, c);
    Look(h, root, cy, y);
    KidIsThere(h, root, cy, y, false);
    forall n | n in Nodes(y.right)
      ensures n in h && h[n] == CellOf(y.right, y.ref, n)
    {
      KidCells(h, root, cy, y, false, n);
    }
    if y.right.Node? { Look(h, root, Step(false, y.red, y.ref, y.entry, Leaf, cy), y.right); }
  }

  lemma NearIsReady(h: Heap, root: Ref, c: Ctx, t: Tree)
    requires Shaped(h, root, Plug(c, t)) && t.Node? && t.left.Node? && t.right.Node?
    requires NIL in h && h[NIL].red == BLACK && h[NIL].left == NIL && h[NIL].right == NIL
    requires var y, x := t.right, Root(t.right.right);
      && y.ref in h && h[y.ref].key == y.entry.key && h[y.ref].value == y.entry.level && h[y.ref].right == x
      && x in h && (x != NIL ==> h[x].parent == y.ref)
      && y.ref != t.ref && Distinct(Node(t.red, t.left, y.ref, y.entry, y.right))
      && Nodes(Node(t.red, t.left, y.ref, y.entry, y.right)) !! CtxNodes(c)
      && NIL !in Nodes(Node(t.red, t.left, y.ref, y.entry, y.right))
      && x !in {t.ref, y.ref} && x !in Nodes(t.left) && x !in CtxNodes(c)
    requires forall n <- Nodes(t.right.right) :: n in h && h[n] == CellOf(t.right.right, t.right.ref, n)
    ensures var y, x := t.right, Root(t.right.right);
      CanSeat(h, h[x := h[x].(parent := y.ref)], root, c, t, Node(t.red, t.left, y.ref, y.entry, y.right))
  {
    hide Shaped, Plug, CellOf, Root, Distinct, CtxNodes;
    var y, x := t.right, Root(t.right.right);
    assert NIL !in Nodes(y.right);
    assert x != NIL ==> h[x].(parent := y.ref) == h[x];
  }

  lemma SeatFar(c: Ctx, t: Tree, y: Ref, e: Entry)
    requires Distinct(Plug(c, t)) && NIL !in Nodes(Plug(c, t)) && t.Node? && t.right.Node?
    requires y != NIL && y !in Nodes(Plug(c, t))
    ensures var r, v := t.right.ref, Node(t.red, t.left, y, e, t.right);
      && y != t.ref && Distinct(v) && Nodes(v) !! CtxNodes(c) && NIL !in Nodes(v)
      && r !in {y, t.ref, NIL} && r !in Nodes(t.left) && r !in CtxNodes(c) && r in Nodes(t.right)
      && y !in Nodes(t.left) && y !in CtxNodes(c) && y !in Nodes(t.right)
  {
    PlugNodes(c, t);
    assert t.right.ref in Nodes(t.right);
  }

  /** The successor y lies deeper and has been cut out of z's right subtree. */
  lemma CanSeatFar(h: Heap, root: Ref, c: Ctx, t: Tree, y: Ref, e: Entry)
    requires Shaped(h, root, Plug(c, t)) && t.Node? && t.left.Node? && t.right.Node?
    requires y in h && y != NIL && y !in Nodes(Plug(c, t)) && h[y].key == e.key && h[y].value == e.level
    ensures var r := t.right.ref;
      && r in h && r != y
      && CanSeat(h, h[y := h[y].(right := r)][r := h[r].(parent := y)], root, c, t, Node(t.red, t.left, y, e, t.right))
  {
    SeatFar(c, t, y, e);
    KidIsThere(h, root, c, t, false);
    forall n | n in Nodes(t.right)
      ensures n in h && n != y
      ensures CellOf(t.right, y, n) == if n == t.right.ref then h[n].(parent := y) else h[n]
    {
      KidCells(h, root, c, t, false, n);
      Reparent(t.right, t.ref, y, n);
    }
  }
}
