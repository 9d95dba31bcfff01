/** The sorted list of entries that a search tree stands for, and how a descent for a key splits it. */
module RBLists {
  import opened Levels
  import opened SortedKeys
  import opened RBShape

  function Keys(es: seq<Entry>): (ks: seq<real>)
    ensures |ks| == |es| && forall i :: 0 <= i < |es| ==> ks[i] == es[i].key
  {
    seq(|es|, i requires 0 <= i < |es| => es[i].key)
  }

  predicate Found(desc: bool, es: seq<Entry>, key: real) {
    var k := Rank(desc, Keys(es), key);
    k < |es| && es[k].key == key
  }

  function LevelAt(desc: bool, es: seq<Entry>, key: real): PriceLevel? {
    if Found(desc, es, key) then es[Rank(desc, Keys(es), key)].level else null
  }

  function Put(desc: bool, es: seq<Entry>, key: real, level: PriceLevel): seq<Entry> {
    var k := Rank(desc, Keys(es), key);
    if Found(desc, es, key) then es[k := Entry(key, level)] else es[..k] + [Entry(key, level)] + es[k..]
  }

  function Drop(desc: bool, es: seq<Entry>, key: real): seq<Entry> {
    var k := Rank(desc, Keys(es), key);
    if Found(desc, es, key) then es[..k] + es[k + 1..] else es
  }

  /** Where the descent for a key stands: everything on its left comes before the key, everything right after it. */
  ghost predicate Splits(desc: bool, c: Ctx, key: real) {
    && (forall i :: 0 <= i < |Pre(c)| ==> Before(desc, Pre(c)[i].key, key))
    && (forall i :: 0 <= i < |Post(c)| ==> Before(desc, key, Post(c)[i].key))
  }

  /** The side of the parent that the descent took. */
  lemma SplitSide(desc: bool, c: Ctx, key: real)
    requires c.Step? && Splits(desc, c, key)
    ensures c.onLeft <==> Before(desc, key, c.entry.key)
  {
    if c.onLeft {
      assert Post(c)[0] == c.entry;
    } else {
      assert Pre(c)[|Pre(c)| - 1] == c.entry;
    }
  }

  lemma SortedAround(desc: bool, a: seq<Entry>, l: seq<Entry>, e: Entry, r: seq<Entry>, b: seq<Entry>)
    requires Sorted(desc, Keys(a + (l + [e] + r) + b))
    ensures forall x <- l :: Before(desc, x.key, e.key)
    ensures forall x <- r :: Before(desc, e.key, x.key)
  {
    var ks, m := Keys(a + (l + [e] + r) + b), |a| + |l|;
    assert ks[m] == e.key;
    forall i | 0 <= i < |l|
      ensures Before(desc, l[i].key, e.key)
    {
      assert ks[|a| + i] == l[i].key;
    }
    forall i | 0 <= i < |r|
      ensures Before(desc, e.key, r[i].key)
    {
      assert ks[m + 1 + i] == r[i].key;
    }
  }

  lemma StepSplits(desc: bool, c: Ctx, t: Tree, key: real)
    requires t.Node? && Splits(desc, c, key)
    requires forall x <- Entries(t.left) :: Before(desc, x.key, t.entry.key)
    requires forall x <- Entries(t.right) :: Before(desc, t.entry.key, x.key)
    ensures Before(desc, key, t.entry.key) ==> Splits(desc, Step(true, t.red, t.ref, t.entry, t.right, c), key)
    ensures Before(desc, t.entry.key, key) ==> Splits(desc, Step(false, t.red, t.ref, t.entry, t.left, c), key)
  {
    hide Entries;
    var right, left := Entries(t.right), Entries(t.left);
    assert forall i :: 0 <= i < |right| ==> right[i] in right;
    assert forall i :: 0 <= i < |left| ==> left[i] in left;
    assert Post(Step(true, t.red, t.ref, t.entry, t.right, c)) == [t.entry] + right + Post(c);
    assert Pre(Step(false, t.red, t.ref, t.entry, t.left, c)) == Pre(c) + left + [t.entry];
  }

  lemma DescendSplits(desc: bool, c: Ctx, t: Tree, key: real)
    requires t.Node? && Splits(desc, c, key) && Sorted(desc, Keys(Entries(Plug(c, t))))
    ensures Before(desc, key, t.entry.key) ==> Splits(desc, Step(true, t.red, t.ref, t.entry, t.right, c), key)
    ensures Before(desc, t.entry.key, key) ==> Splits(desc, Step(false, t.red, t.ref, t.entry, t.left, c), key)
  {
    PlugEntries(c, t);
    assert Entries(t) == Entries(t.left) + [t.entry] + Entries(t.right);
    hide *;
    SortedAround(desc, Pre(c), Entries(t.left), t.entry, Entries(t.right), Post(c));
    StepSplits(desc, c, t, key);
  }

  /** Once the descent has ended in a leaf, the key is missing and belongs into the hole. */
  lemma MissesAt(desc: bool, c: Ctx, key: real)
    requires Splits(desc, c, key)
    ensures !Found(desc, Entries(Plug(c, Leaf)), key)
    ensures forall level ::
      Put(desc, Entries(Plug(c, Leaf)), key, level) == Pre(c) + [Entry(key, level)] + Post(c)
  {
    PlugEntries(c, Leaf);
    var es := Pre(c) + Post(c);
    assert Entries(Plug(c, Leaf)) == es;
    RankIsUnique(desc, Keys(es), key, |Pre(c)|);
    assert es[..|Pre(c)|] == Pre(c) && es[|Pre(c)|..] == Post(c);
  }

  lemma RankOfMiddle(desc: bool, l: seq<Entry>, e: Entry, r: seq<Entry>)
    requires Sorted(desc, Keys(l + [e] + r))
    ensures Rank(desc, Keys(l + [e] + r), e.key) == |l|
  {
    var ks := Keys(l + [e] + r);
    assert ks[|l|] == e.key;
    forall i | 0 <= i < |l|
      ensures Before(desc, ks[i], e.key)
    {
      assert Before(desc, ks[i], ks[|l|]);
    }
    RankIsUnique(desc, ks, e.key, |l|);
  }

  lemma Regroup(a: seq<Entry>, b: seq<Entry>, e: Entry, c: seq<Entry>, d: seq<Entry>)
    ensures a + (b + [e] + c) + d == (a + b) + [e] + (c + d)
  {
  }

  lemma UpdateMiddle(desc: bool, l: seq<Entry>, e: Entry, r: seq<Entry>, level: PriceLevel)
    requires Sorted(desc, Keys(l + [e] + r))
    ensures Found(desc, l + [e] + r, e.key) && LevelAt(desc, l + [e] + r, e.key) == e.level
    ensures Drop(desc, l + [e] + r, e.key) == l + r
    ensures Put(desc, l + [e] + r, e.key, level) == l + [Entry(e.key, level)] + r
  {
    RankOfMiddle(desc, l, e, r);
  }

  /** Once the descent has found the key, the list operations act on the entry at the hole. */
  lemma FindsAt(desc: bool, c: Ctx, t: Tree, level: PriceLevel)
    requires t.Node? && Sorted(desc, Keys(Entries(Plug(c, t))))
    ensures Found(desc, Entries(Plug(c, t)), t.entry.key)
    ensures LevelAt(desc, Entries(Plug(c, t)), t.entry.key) == t.entry.level
    ensures Drop(desc, Entries(Plug(c, t)), t.entry.key) == (Pre(c) + Entries(t.left)) + (Entries(t.right) + Post(c))
    ensures Put(desc, Entries(Plug(c, t)), t.entry.key, level)
         == Entries(Plug(c, t.(entry := Entry(t.entry.key, level))))
  {
    PlugEntries(c, t);
    PlugEntries(c, t.(entry := Entry(t.entry.key, level)));
    Regroup(Pre(c), Entries(t.left), t.entry, Entries(t.right), Post(c));
    Regroup(Pre(c), Entries(t.left), Entry(t.entry.key, level), Entries(t.right), Post(c));
    UpdateMiddle(desc, Pre(c) + Entries(t.left), t.entry, Entries(t.right) + Post(c), level);
  }

  lemma PutSorted(desc: bool, es: seq<Entry>, key: real, level: PriceLevel)
    requires Sorted(desc, Keys(es))
    ensures Sorted(desc, Keys(Put(desc, es, key, level)))
    ensures Sorted(desc, Keys(Drop(desc, es, key)))
  {
    var k := Rank(desc, Keys(es), key);
    if Found(desc, es, key) {
      assert Keys(es[k := Entry(key, level)]) == Keys(es);
      SortedWithout(desc, Keys(es), k);
      assert Keys(es[..k] + es[k + 1..]) == Keys(es)[..k] + Keys(es)[k + 1..];
    } else {
      SortedWith(desc, Keys(es), k, key);
      assert Keys(es[..k] + [Entry(key, level)] + es[k..]) == Keys(es)[..k] + [key] + Keys(es)[k..];
    }
  }

  lemma SortedWithout(desc: bool, ks: seq<real>, k: nat)
    requires Sorted(desc, ks) && k < |ks|
    ensures Sorted(desc, ks[..k] + ks[k + 1..])
  {
  }

  lemma SortedWith(desc: bool, ks: seq<real>, k: nat, key: real)
    requires Sorted(desc, ks) && k <= |ks| && (forall i :: 0 <= i < k ==> Before(desc, ks[i], key))
    requires k < |ks| ==> Before(desc, key, ks[k])
    ensures Sorted(desc, ks[..k] + [key] + ks[k..])
  {
    forall i | k <= i < |ks|
      ensures Before(desc, key, ks[i])
    {
      assert i > k ==> Before(desc, ks[k], ks[i]);
    }
  }
}
