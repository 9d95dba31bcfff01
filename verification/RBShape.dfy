/** The tree that a set of linked red-black nodes stands for, and one-hole contexts ("zippers") that describe
    everything around a node while a loop walks or repairs the tree. */
module RBShape {
  import opened Levels
  import opened PowersOfTwo

  /** The address of a node. Address NIL is the tree's one sentinel. */
  type Ref = nat

  const NIL: Ref := 0
  const RED := true
  const BLACK := false

  datatype Entry = Entry(key: real, level: PriceLevel)

  datatype Tree = Leaf | Node(red: bool, left: Tree, ref: Ref, entry: Entry, right: Tree)

  /** What surrounds a subtree: the parent (with the subtree on its left or right), the sibling, and so on up. */
  datatype Ctx = Top | Step(onLeft: bool, red: bool, ref: Ref, entry: Entry, sib: Tree, up: Ctx)

  function Join(onLeft: bool, red: bool, t: Tree, ref: Ref, entry: Entry, sib: Tree): Tree {
    if onLeft then Node(red, t, ref, entry, sib) else Node(red, sib, ref, entry, t)
  }

  function Plug(c: Ctx, t: Tree): Tree {
    match c
    case Top => t
    case Step(onLeft, red, ref, entry, sib, up) => Plug(up, Join(onLeft, red, t, ref, entry, sib))
  }

  // ------------------------------------------------------------------ contents

  function Entries(t: Tree): seq<Entry> {
    match t
    case Leaf => []
    case Node(_, l, _, e, r) => Entries(l) + [e] + Entries(r)
  }

  function Pre(c: Ctx): seq<Entry> {
    match c
    case Top => []
    case Step(onLeft, _, _, e, sib, up) => if onLeft then Pre(up) else Pre(up) + Entries(sib) + [e]
  }

  function Post(c: Ctx): seq<Entry> {
    match c
    case Top => []
    case Step(onLeft, _, _, e, sib, up) => if onLeft then [e] + Entries(sib) + Post(up) else Post(up)
  }

  lemma {:induction false} PlugEntries(c: Ctx, t: Tree)
    ensures Entries(Plug(c, t)) == Pre(c) + Entries(t) + Post(c)
  {
    match c
    case Top =>
    case Step(onLeft, red, ref, e, sib, up) =>
      PlugEntries(up, Join(onLeft, red, t, ref, e, sib));
      if onLeft {
        Regrouping(Pre(up), Entries(t), [e], Entries(sib), Post(up));
      } else {
        Regrouping(Pre(up), Entries(sib), [e], Entries(t), Post(up));
      }
  }

  lemma Regrouping<T>(a: seq<T>, b: seq<T>, c: seq<T>, d: seq<T>, e: seq<T>)
    ensures a + (b + c + d) + e == a + b + (c + d + e)
    ensures a + (b + c + d) + e == a + b + c + d + e
  {
  }

  // ------------------------------------------------------------------ the red-black rules

  predicate IsRed(t: Tree) { t.Node? && t.red }

  predicate CtxRed(c: Ctx) { c.Step? && c.red }

  function Blacken(t: Tree): Tree { if t.Node? then t.(red := BLACK) else t }

  /** Black height, read along the left spine; RB says that every other path agrees. */
  function BH(t: Tree): nat {
    match t
    case Leaf => 0
    case Node(red, l, _, _, _) => BH(l) + if red then 0 else 1
  }

  predicate RB(t: Tree) {
    match t
    case Leaf => true
    case Node(red, l, _, _, r) => RB(l) && RB(r) && BH(l) == BH(r) && (red ==> !IsRed(l) && !IsRed(r))
  }

  /** The rules for everything outside the hole, when a subtree of black height h belongs into it. */
  predicate RBCtx(c: Ctx, h: nat) {
    match c
    case Top => true
    case Step(_, red, _, _, sib, up) =>
      RB(sib) && BH(sib) == h && (red ==> !IsRed(sib) && !CtxRed(up)) && RBCtx(up, if red then h else h + 1)
  }

  predicate BlackRoot(c: Ctx) {
    match c
    case Top => true
    case Step(_, red, _, _, _, up) => if up.Top? then !red else BlackRoot(up)
  }

  lemma {:induction false} PlugRB(c: Ctx, t: Tree)
    ensures RB(Plug(c, t)) <==> RB(t) && RBCtx(c, BH(t)) && !(CtxRed(c) && IsRed(t))
    ensures c.Step? ==> (IsRed(Plug(c, t)) <==> !BlackRoot(c))
  {
    match c
    case Top =>
    case Step(onLeft, red, ref, e, sib, up) =>
      PlugRB(up, Join(onLeft, red, t, ref, e, sib));
  }

  // ------------------------------------------------------------------ heights

  function Height(t: Tree): nat {
    match t
    case Leaf => 0
    case Node(_, l, _, _, r) => 1 + if Height(l) < Height(r) then Height(r) else Height(l)
  }

  function Depth(c: Ctx): nat {
    match c
    case Top => 0
    case Step(_, _, _, _, _, up) => 1 + Depth(up)
  }

  lemma {:induction false} PlugHeight(c: Ctx, t: Tree)
    ensures Depth(c) + Height(t) <= Height(Plug(c, t))
  {
    match c
    case Top =>
    case Step(onLeft, red, ref, e, sib, up) => PlugHeight(up, Join(onLeft, red, t, ref, e, sib));
  }

  lemma {:induction false} BlackHeightBounds(t: Tree)
    requires RB(t)
    ensures Height(t) <= 2 * BH(t) + if IsRed(t) then 1 else 0
    ensures Pow2(BH(t)) <= |Entries(t)| + 1
  {
    match t
    case Leaf =>
    case Node(_, l, _, _, r) => BlackHeightBounds(l); BlackHeightBounds(r);
  }

  /** The whole part of the binary logarithm. */
  function Log2(n: nat): nat { if n < 2 then 0 else 1 + Log2(n / 2) }

  lemma {:induction false} PowerBelow(k: nat, n: nat)
    requires Pow2(k) <= n
    ensures k <= Log2(n)
  {
    if k > 0 { PowerBelow(k - 1, n / 2); }
  }

  /** The height of a red-black tree is at most twice the logarithm of its size plus one. */
  lemma HeightIsLogarithmic(t: Tree)
    requires RB(t) && !IsRed(t)
    ensures Height(t) <= 2 * Log2(|Entries(t)| + 1)
    ensures Pow2((Height(t) + 1) / 2) <= |Entries(t)| + 1
  {
    BlackHeightBounds(t);
    PowerBelow(BH(t), |Entries(t)| + 1);
    PowerGrows((Height(t) + 1) / 2, BH(t));
  }

  lemma {:induction false} PowerGrows(a: nat, b: nat)
    requires a <= b
    ensures Pow2(a) <= Pow2(b)
  {
    if a < b { PowerGrows(a, b - 1); }
  }

  /** Log2 is the logarithm. */
  lemma {:induction false} LogIs(n: nat)
    requires n > 0
    ensures Pow2(Log2(n)) <= n < 2 * Pow2(Log2(n))
  {
    if n >= 2 { LogIs(n / 2); }
  }

  // ------------------------------------------------------------------ contexts inside contexts

  function Compose(path: Ctx, outer: Ctx): Ctx {
    match path
    case Top => outer
    case Step(onLeft, red, n, e, sib, up) => Step(onLeft, red, n, e, sib, Compose(up, outer))
  }

  lemma {:induction false} PlugCompose(path: Ctx, outer: Ctx, t: Tree)
    ensures Plug(Compose(path, outer), t) == Plug(outer, Plug(path, t))
  {
    match path
    case Top =>
    case Step(onLeft, red, n, e, sib, up) => PlugCompose(up, outer, Join(onLeft, red, t, n, e, sib));
  }

  /** The red-black rules look at colours and shapes, never at which node or entry sits where. */
  lemma {:induction false} ComposeRB(path: Ctx, outer: Ctx, outer': Ctx, h: nat)
    requires outer.Step? && outer'.Step? && outer' == outer.(ref := outer'.ref, entry := outer'.entry)
    ensures RBCtx(Compose(path, outer), h) == RBCtx(Compose(path, outer'), h)
    ensures BlackRoot(Compose(path, outer)) == BlackRoot(Compose(path, outer'))
    ensures CtxRed(Compose(path, outer)) == CtxRed(Compose(path, outer'))
  {
    match path
    case Top =>
    case Step(onLeft, red, n, e, sib, up) => ComposeRB(up, outer, outer', if red then h else h + 1);
  }

  /** A path that only ever turned left has nothing before its hole. */
  predicate Leftmost(path: Ctx) { path.Top? || (path.onLeft && Leftmost(path.up)) }

  lemma {:induction false} LeftmostIsFirst(path: Ctx)
    requires Leftmost(path)
    ensures Pre(path) == []
  {
    if path.Step? { LeftmostIsFirst(path.up); }
  }

  predicate Rightmost(path: Ctx) { path.Top? || (!path.onLeft && Rightmost(path.up)) }

  lemma {:induction false} RightmostIsLast(path: Ctx)
    requires Rightmost(path)
    ensures Post(path) == []
  {
    if path.Step? { RightmostIsLast(path.up); }
  }

  /** The entry at the end of a path that only turned left is the first one, and mirrored. */
  lemma EndOfPath(path: Ctx, m: Tree)
    requires m.Node?
    ensures Leftmost(path) && m.left.Leaf? ==> Entries(Plug(path, m)) == [m.entry] + Entries(m.right) + Post(path)
    ensures Rightmost(path) && m.right.Leaf? ==> Entries(Plug(path, m)) == Pre(path) + Entries(m.left) + [m.entry]
  {
    PlugEntries(path, m);
    if Leftmost(path) { LeftmostIsFirst(path); }
    if Rightmost(path) { RightmostIsLast(path); }
  }
}
