/** Why the two repair loops restore the red-black rules: one lemma per case, for both mirror images at once. */
module RBFixup {
  import opened SortedKeys
  import opened RBShape
  import opened RBLists
  import opened RBHeap

  lemma Regrouped(a: seq<Entry>, x: Entry, b: seq<Entry>, y: Entry, c: seq<Entry>)
    ensures (a + [x] + b) + [y] + c == a + [x] + (b + [y] + c)
  {
  }

  lemma RotateEntries(left: bool, c: Ctx, t: Tree)
    requires t.Node? && Kid(t, !left).Node?
    ensures Entries(Plug(c, Rotate(left, t))) == Entries(Plug(c, t))
  {
    PlugEntries(c, t);
    PlugEntries(c, Rotate(left, t));
    var y := Kid(t, !left);
    if left {
      Regrouped(Entries(t.left), t.entry, Entries(y.left), y.entry, Entries(y.right));
    } else {
      Regrouped(Entries(y.left), y.entry, Entries(y.right), t.entry, Entries(t.right));
    }
    assert Entries(Rotate(left, t)) == Entries(t);
  }

  lemma SameEntries(c: Ctx, t: Tree, v: Tree)
    requires Entries(t) == Entries(v)
    ensures Entries(Plug(c, t)) == Entries(Plug(c, v))
  {
    PlugEntries(c, t);
    PlugEntries(c, v);
  }

  // ------------------------------------------------------------------ after an insertion

  /** What the insert loop keeps: the only possible violation is a red node t under a red parent. */
  ghost predicate RedAt(c: Ctx, t: Tree) {
    t.Node? && t.red && RB(t) && RBCtx(c, BH(t)) && BlackRoot(c)
  }

  /** A red parent has a black parent of its own. */
  lemma GrandparentIsBlack(c: Ctx, t: Tree)
    requires RedAt(c, t) && CtxRed(c)
    ensures c.up.Step? && !c.up.red
  {
  }

  /** Red uncle: the new violation can only be at the grandparent. */
  function Recolored(c: Ctx, t: Tree): Tree
    requires c.Step? && c.up.Step? && c.up.sib.Node?
  {
    var lower := Join(c.onLeft, BLACK, t, c.ref, c.entry, c.sib);
    Join(c.up.onLeft, RED, lower, c.up.ref, c.up.entry, c.up.sib.(red := BLACK))
  }

  lemma RecoloredIsRed(c: Ctx, t: Tree)
    requires RedAt(c, t) && CtxRed(c) && c.up.Step? && IsRed(c.up.sib)
    ensures RedAt(c.up.up, Recolored(c, t))
    ensures Entries(Plug(c.up.up, Recolored(c, t))) == Entries(Plug(c, t))
  {
    var g := c.up;
    assert RBCtx(g, BH(t) + 0) && RBCtx(g.up, BH(t) + 1) && BlackRoot(g);
    SameEntries(g.up, Join(g.onLeft, g.red, Join(c.onLeft, c.red, t, c.ref, c.entry, c.sib), g.ref, g.entry, g.sib),
                Recolored(c, t));
  }

  /** Black uncle and t on the inside: after one rotation the old parent is on the outside. */
  lemma RotatedOut(c: Ctx, t: Tree)
    requires RedAt(c, t) && CtxRed(c) && c.up.Step? && !IsRed(c.up.sib) && c.onLeft != c.up.onLeft
    ensures var gl := c.up.onLeft;
      var p, c' := Join(!gl, RED, Kid(t, gl), c.ref, c.entry, c.sib), Step(gl, RED, t.ref, t.entry, Kid(t, !gl), c.up);
      && Plug(c.up, Rotate(gl, Join(c.onLeft, c.red, t, c.ref, c.entry, c.sib))) == Plug(c', p)
      && RedAt(c', p) && Entries(Plug(c', p)) == Entries(Plug(c, t))
  {
    RotateEntries(c.up.onLeft, c.up, Join(c.onLeft, c.red, t, c.ref, c.entry, c.sib));
  }

  /** Black uncle and t on the outside: blacken the parent, redden the grandparent, rotate it down. */
  lemma RotatedDown(c: Ctx, t: Tree)
    requires RedAt(c, t) && CtxRed(c) && c.up.Step? && !IsRed(c.up.sib) && c.onLeft == c.up.onLeft
    ensures var g := c.up;
      var top := Join(g.onLeft, RED, Join(c.onLeft, BLACK, t, c.ref, c.entry, c.sib), g.ref, g.entry, g.sib);
      var c' := Step(c.onLeft, BLACK, c.ref, c.entry, Join(c.onLeft, RED, c.sib, g.ref, g.entry, g.sib), g.up);
      && Plug(g.up, Rotate(!g.onLeft, top)) == Plug(c', t)
      && RedAt(c', t) && Entries(Plug(c', t)) == Entries(Plug(c, t))
  {
    var g := c.up;
    var top := Join(g.onLeft, RED, Join(c.onLeft, BLACK, t, c.ref, c.entry, c.sib), g.ref, g.entry, g.sib);
    var was := Join(g.onLeft, g.red, Join(c.onLeft, c.red, t, c.ref, c.entry, c.sib), g.ref, g.entry, g.sib);
    RotateEntries(!g.onLeft, g.up, top);
    SameEntries(g.up, was, top);
    assert RBCtx(c.up, BH(t)) && RBCtx(c.up.up, BH(t) + 1) && BlackRoot(c.up);
    var low := Join(c.onLeft, RED, c.sib, c.up.ref, c.up.entry, c.up.sib);
    assert RB(low) && BH(low) == BH(t);
  }

  /** Without a red parent there is no violation left once the root is black. */
  lemma RedIsRepaired(c: Ctx, t: Tree)
    requires RedAt(c, t) && !CtxRed(c)
    ensures RB(Blacken(Plug(c, t))) && Entries(Blacken(Plug(c, t))) == Entries(Plug(c, t))
  {
    PlugRB(c, t);
  }

  // ------------------------------------------------------------------ taking a node out

  /** What the delete loop keeps: every path through t is one black node short, and t counts as black if it is red. */
  ghost predicate BlackShort(c: Ctx, t: Tree) {
    RB(Blacken(t)) && RBCtx(c, BH(t) + 1) && (c.Step? ==> BlackRoot(c))
  }

  /** The state after y, which had at most the one child x, was taken out of c. */
  ghost predicate TakenOut(c: Ctx, x: Tree, yRed: bool) {
    if yRed then RB(Plug(c, x)) && !IsRed(Plug(c, x)) else BlackShort(c, x)
  }

  /** Splicing out a node with at most one child. */
  lemma TakeOutSingle(c: Ctx, t: Tree, left: bool)
    requires RB(Plug(c, t)) && !IsRed(Plug(c, t)) && t.Node? && Kid(t, !left).Leaf?
    ensures TakenOut(c, Kid(t, left), t.red)
  {
    PlugRB(c, t);
    PlugRB(c, Kid(t, left));
  }

  lemma Closed(a: seq<Entry>, b: seq<Entry>, e: seq<Entry>, c: seq<Entry>, d: seq<Entry>)
    ensures (a + b) + ((e + c) + d) == a + (b + e + c) + d
  {
  }

  lemma TakeOutSingleEntry(desc: bool, c: Ctx, t: Tree, left: bool)
    requires Sorted(desc, Keys(Entries(Plug(c, t)))) && t.Node? && Kid(t, !left).Leaf?
    ensures Entries(Plug(c, Kid(t, left))) == Drop(desc, Entries(Plug(c, t)), t.entry.key)
  {
    FindsAt(desc, c, t, t.entry.level);
    PlugEntries(c, Kid(t, left));
    Closed(Pre(c), Entries(t.left), [], Entries(t.right), Post(c));
    assert Entries(t.left) + [] + Entries(t.right) == Entries(Kid(t, left));
    assert [] + Entries(t.right) == Entries(t.right);
  }

  /** Splicing out the successor y of t's node, which takes over the place, entry and colour of t's node. */
  lemma TakeOutSuccessor(c: Ctx, t: Tree, path: Ctx, y: Tree)
    requires RB(Plug(c, t)) && !IsRed(Plug(c, t)) && t.Node? && y.Node? && y.left.Leaf? && t.right == Plug(path, y)
    ensures TakenOut(Compose(path, Step(false, t.red, y.ref, y.entry, t.left, c)), y.right, y.red)
  {
    var old_, new_ := Step(false, t.red, t.ref, t.entry, t.left, c), Step(false, t.red, y.ref, y.entry, t.left, c);
    PlugCompose(path, old_, y);
    assert Plug(Compose(path, old_), y) == Plug(c, t);
    PlugRB(Compose(path, old_), y);
    ComposeRB(path, old_, new_, BH(y));
    PlugRB(Compose(path, new_), y.right);
  }

  lemma SuccessorIsFirst(path: Ctx, y: Tree)
    requires Leftmost(path) && y.Node? && y.left.Leaf?
    ensures Entries(Plug(path, y)) == [y.entry] + Entries(Plug(path, y.right))
  {
    LeftmostIsFirst(path);
    PlugEntries(path, y);
    PlugEntries(path, y.right);
  }

  lemma TakeOutSuccessorEntry(desc: bool, c: Ctx, t: Tree, path: Ctx, y: Tree)
    requires Sorted(desc, Keys(Entries(Plug(c, t)))) && t.Node? && y.Node? && y.left.Leaf? && t.right == Plug(path, y)
    requires Leftmost(path)
    ensures Entries(Plug(Compose(path, Step(false, t.red, y.ref, y.entry, t.left, c)), y.right))
         == Drop(desc, Entries(Plug(c, t)), t.entry.key)
  {
    var new_ := Node(t.red, t.left, y.ref, y.entry, Plug(path, y.right));
    PlugCompose(path, Step(false, t.red, y.ref, y.entry, t.left, c), y.right);
    FindsAt(desc, c, t, t.entry.level);
    PlugEntries(c, new_);
    SuccessorIsFirst(path, y);
    Closed(Pre(c), Entries(t.left), [y.entry], Entries(Plug(path, y.right)), Post(c));
  }

  // ------------------------------------------------------------------ after a deletion

  /** The sibling of a subtree that is short of a black node is a real node. */
  lemma ShortHasSibling(c: Ctx, t: Tree)
    requires BlackShort(c, t) && c.Step?
    ensures c.sib.Node? && (IsRed(c.sib) ==> !c.red)
    ensures !IsRed(c.sib) ==> BH(c.sib) == 1 + BH(c.sib.left)
  {
  }

  /** Red sibling w: after a rotation the sibling is black. */
  function SiblingRaised(c: Ctx): Ctx
    requires c.Step? && c.sib.Node?
  {
    var w := c.sib;
    var upper := Step(c.onLeft, BLACK, w.ref, w.entry, Kid(w, !c.onLeft), c.up);
    Step(c.onLeft, RED, c.ref, c.entry, Kid(w, c.onLeft), upper)
  }

  lemma RaisesSibling(c: Ctx, t: Tree)
    requires BlackShort(c, t) && c.Step? && IsRed(c.sib)
    ensures BlackShort(SiblingRaised(c), t) && !IsRed(SiblingRaised(c).sib)
    ensures var turned := Rotate(c.onLeft, Join(c.onLeft, RED, t, c.ref, c.entry, c.sib.(red := BLACK)));
      Plug(SiblingRaised(c), t) == Plug(c.up, turned)
    ensures Entries(Plug(SiblingRaised(c), t)) == Entries(Plug(c, t))
  {
    var p := Join(c.onLeft, RED, t, c.ref, c.entry, c.sib.(red := BLACK));
    RotateEntries(c.onLeft, c.up, p);
    SameEntries(c.up, p, Join(c.onLeft, c.red, t, c.ref, c.entry, c.sib));
  }

  /** Black sibling with black children: redden it, and the whole parent is short instead. */
  lemma PassesUp(c: Ctx, t: Tree)
    requires BlackShort(c, t) && c.Step? && !IsRed(t)
    requires c.sib.Node? && !c.sib.red && !IsRed(c.sib.left) && !IsRed(c.sib.right)
    ensures var p := Join(c.onLeft, c.red, t, c.ref, c.entry, c.sib.(red := RED));
      BlackShort(c.up, p) && Entries(Plug(c.up, p)) == Entries(Plug(c, t))
  {
    SameEntries(c.up, Join(c.onLeft, c.red, t, c.ref, c.entry, c.sib.(red := RED)),
                Join(c.onLeft, c.red, t, c.ref, c.entry, c.sib));
  }

  /** The sibling's near child is red and the far one black: turn the sibling so that the far child is red. */
  function SiblingTurned(c: Ctx): Ctx
    requires c.Step? && c.sib.Node? && Kid(c.sib, c.onLeft).Node?
  {
    var w := c.sib;
    var near := Kid(w, c.onLeft).(red := BLACK);
    c.(sib := Rotate(!c.onLeft, Join(c.onLeft, RED, near, w.ref, w.entry, Kid(w, !c.onLeft))))
  }

  lemma TurnsSibling(c: Ctx, t: Tree)
    requires BlackShort(c, t) && c.Step? && c.sib.Node? && !c.sib.red
    requires IsRed(Kid(c.sib, c.onLeft)) && !IsRed(Kid(c.sib, !c.onLeft))
    ensures BlackShort(SiblingTurned(c), t)
    ensures SiblingTurned(c).sib.Node? && !SiblingTurned(c).sib.red && IsRed(Kid(SiblingTurned(c).sib, !c.onLeft))
    ensures Entries(Plug(SiblingTurned(c), t)) == Entries(Plug(c, t))
  {
    var w, near := c.sib, Kid(c.sib, c.onLeft);
    assert RB(near) && RB(near.left) && RB(near.right) && BH(near.left) == BH(near.right) == BH(Kid(w, !c.onLeft));
    var low := Join(c.onLeft, RED, Kid(near, !c.onLeft), w.ref, w.entry, Kid(w, !c.onLeft));
    assert RB(low) && BH(low) == BH(near.left);
    var w' := Join(c.onLeft, RED, near.(red := BLACK), w.ref, w.entry, Kid(w, !c.onLeft));
    RotateEntries(!c.onLeft, Top, w');
    assert Entries(w') == Entries(w) == Entries(SiblingTurned(c).sib);
    var turned := SiblingTurned(c).sib;
    SameEntries(c.up, Join(c.onLeft, c.red, t, c.ref, c.entry, w), Join(c.onLeft, c.red, t, c.ref, c.entry, turned));
  }

  /** The far child is red: one rotation supplies the missing black node. */
  function Borrowed(c: Ctx, t: Tree): Tree
    requires c.Step? && c.sib.Node? && Kid(c.sib, !c.onLeft).Node?
  {
    var w := c.sib;
    Rotate(c.onLeft, Join(c.onLeft, BLACK, t, c.ref, c.entry,
                          Join(c.onLeft, c.red, Kid(w, c.onLeft), w.ref, w.entry, Kid(w, !c.onLeft).(red := BLACK))))
  }

  lemma BorrowRepairs(c: Ctx, t: Tree)
    requires BlackShort(c, t) && c.Step? && !IsRed(t) && c.sib.Node? && !c.sib.red && IsRed(Kid(c.sib, !c.onLeft))
    ensures RB(Plug(c.up, Borrowed(c, t))) && BlackShort(Top, Plug(c.up, Borrowed(c, t)))
    ensures Entries(Plug(c.up, Borrowed(c, t))) == Entries(Plug(c, t))
  {
    var w := c.sib;
    var w' := Join(c.onLeft, c.red, Kid(w, c.onLeft), w.ref, w.entry, Kid(w, !c.onLeft).(red := BLACK));
    var p := Join(c.onLeft, BLACK, t, c.ref, c.entry, w');
    assert Entries(w') == Entries(w);
    RotateEntries(c.onLeft, c.up, p);
    SameEntries(c.up, p, Join(c.onLeft, c.red, t, c.ref, c.entry, w));
    var far := Kid(w, !c.onLeft);
    assert RB(far) && RB(far.(red := BLACK)) && RB(Kid(w, c.onLeft)) && BH(far) == BH(Kid(w, c.onLeft)) == BH(t);
    assert RB(Join(c.onLeft, BLACK, t, c.ref, c.entry, Kid(w, c.onLeft)));
    PlugRB(c.up, Borrowed(c, t));
  }

  /** At the root, or at a red node, blackening that one node repairs everything. */
  lemma ShortIsRepaired(c: Ctx, t: Tree)
    requires BlackShort(c, t) && (c.Top? || IsRed(t))
    ensures RB(Plug(c, Blacken(t))) && !IsRed(Plug(c, Blacken(t)))
    ensures Entries(Plug(c, Blacken(t))) == Entries(Plug(c, t))
  {
    PlugRB(c, Blacken(t));
    SameEntries(c, t, Blacken(t));
  }
}
