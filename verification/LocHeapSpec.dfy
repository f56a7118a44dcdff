/**
  The rank heap of gps/utils/LocHeap.cpp as a value: a binary tree whose nodes carry a cached
  subtree size, together with the results of push, pop and remove on it.

  The ranking is a parameter. `outRanks(a, b)` is the source's `a.ranks(b) > 0`; all the results
  below hold for every ranking for which "does not outrank" is a total preorder.
 */
module LocHeapSpec {
  import opened Wrappers

  datatype Tree<T> = Leaf | Node(size: int, data: T, left: Tree<T>, right: Tree<T>)

  /** "Does not outrank" is total (no two elements outrank each other) and transitive. */
  ghost predicate TotalPreorder<T(!new)>(outRanks: (T, T) -> bool) {
    && (forall a, b :: !outRanks(a, b) || !outRanks(b, a))
    && (forall a, b, c :: !outRanks(a, b) && !outRanks(b, c) ==> !outRanks(a, c))
  }

  ghost function Elems<T>(t: Tree<T>): multiset<T> {
    if t.Leaf? then multiset{} else multiset{t.data} + Elems(t.left) + Elems(t.right)
  }

  function CachedSize<T>(t: Tree<T>): int {
    if t.Leaf? then 0 else t.size
  }

  ghost function Height<T>(t: Tree<T>): nat {
    if t.Leaf? then 0
    else 1 + if Height(t.left) >= Height(t.right) then Height(t.left) else Height(t.right)
  }

  ghost function Nodes<T>(t: Tree<T>): nat {
    if t.Leaf? then 0 else 1 + Nodes(t.left) + Nodes(t.right)
  }

  /** Every cached size is the number of nodes of its subtree. */
  ghost predicate SizesOk<T>(t: Tree<T>) {
    t.Node? ==> t.size == Nodes(t) && SizesOk(t.left) && SizesOk(t.right)
  }

  /** No child outranks its parent. */
  ghost predicate Ordered<T>(t: Tree<T>, outRanks: (T, T) -> bool) {
    t.Node? ==>
      && (t.left.Node? ==> !outRanks(t.left.data, t.data))
      && (t.right.Node? ==> !outRanks(t.right.data, t.data))
      && Ordered(t.left, outRanks)
      && Ordered(t.right, outRanks)
  }

  ghost predicate WellFormed<T>(t: Tree<T>, outRanks: (T, T) -> bool) {
    SizesOk(t) && Ordered(t, outRanks)
  }

  function Peek<T>(t: Tree<T>): Option<T> {
    if t.Leaf? then None else Some(t.data)
  }

  /** The subtree that LocHeapNode::push drops the lower-ranking item into. */
  predicate GoesLeft<T>(t: Tree<T>)
    requires t.Node?
  {
    t.left.Leaf? || (t.right.Node? && t.left.size <= t.right.size)
  }

  /** LocHeapNode::push, and LocHeap::push on an empty heap. */
  function Push<T>(t: Tree<T>, x: T, outRanks: (T, T) -> bool): (r: Tree<T>)
    ensures r.Node?
  {
    if t.Leaf? then Node(1, x, Leaf, Leaf)
    else
      var upper := if outRanks(x, t.data) then x else t.data;
      var lower := if outRanks(x, t.data) then t.data else x;
      if GoesLeft(t)
        then Node(t.size + 1, upper, Push(t.left, lower, outRanks), t.right)
        else Node(t.size + 1, upper, t.left, Push(t.right, lower, outRanks))
  }

  /** The child that LocHeapNode::pop swaps the top with. */
  predicate PicksLeft<T>(t: Tree<T>, outRanks: (T, T) -> bool)
    requires t.Node?
  {
    t.left.Node? && (t.right.Leaf? || outRanks(t.left.data, t.right.data))
  }

  /** What LocHeapNode::pop leaves behind; the data popped out is the top's. */
  function Pop<T>(t: Tree<T>, outRanks: (T, T) -> bool): Tree<T>
    requires t.Node?
  {
    if t.left.Leaf? && t.right.Leaf? then Leaf
    else if PicksLeft(t, outRanks)
      then Node(t.size - 1, t.left.data, Pop(t.left, outRanks), t.right)
      else Node(t.size - 1, t.right.data, t.left, Pop(t.right, outRanks))
  }

  lemma PopIgnoresTop<T>(t: Tree<T>, x: T, outRanks: (T, T) -> bool)
    requires t.Node?
    ensures Pop(t.(data := x), outRanks) == Pop(t, outRanks)
  {
  }

  /** LocHeapNode::remove: None when the search, pruned by rank, does not come across `x`. */
  function Remove<T(==)>(t: Tree<T>, x: T, outRanks: (T, T) -> bool): Option<Tree<T>> {
    if t.Leaf? then None
    else if x == t.data then Some(Pop(t, outRanks))
    else if outRanks(x, t.data) then None
    else
      match Remove(t.left, x, outRanks)
      case Some(left) => Some(Node(t.size - 1, t.data, left, t.right))
      case None =>
        match Remove(t.right, x, outRanks)
        case Some(right) => Some(Node(t.size - 1, t.data, t.left, right))
        case None => None
  }

  /** LocHeapNode::checkNodes, the source's own consistency test. */
  predicate CheckNodes<T>(t: Tree<T>, outRanks: (T, T) -> bool)
    requires t.Node?
  {
    && (t.left.Node? ==> !outRanks(t.left.data, t.data) && CheckNodes(t.left, outRanks))
    && (t.right.Node? ==> !outRanks(t.right.data, t.data) && CheckNodes(t.right, outRanks))
    && t.size - CachedSize(t.left) - CachedSize(t.right) == 1
  }

  /** The test accepts the well-formed heaps and no others. */
  lemma {:induction false} CheckNodesIsExact<T>(t: Tree<T>, outRanks: (T, T) -> bool)
    requires t.Node?
    ensures CheckNodes(t, outRanks) <==> WellFormed(t, outRanks)
  {
    if t.left.Node? { CheckNodesIsExact(t.left, outRanks); } else { assert WellFormed(t.left, outRanks); }
    if t.right.Node? { CheckNodesIsExact(t.right, outRanks); } else { assert WellFormed(t.right, outRanks); }
    assert SizesOk(t.left) ==> CachedSize(t.left) == Nodes(t.left);
    assert SizesOk(t.right) ==> CachedSize(t.right) == Nodes(t.right);
  }

  // ---------- Order ----------

  /** In a heap nothing outranks the top. */
  lemma {:induction false} TopIsMaximal<T(!new)>(t: Tree<T>, x: T, outRanks: (T, T) -> bool)
    requires TotalPreorder(outRanks) && Ordered(t, outRanks) && x in Elems(t)
    ensures t.Node? && !outRanks(x, t.data)
  {
    if x in Elems(t.left) {
      TopIsMaximal(t.left, x, outRanks);
    } else if x in Elems(t.right) {
      TopIsMaximal(t.right, x, outRanks);
    } else {
      assert !outRanks(x, x) || !outRanks(x, x);
    }
  }

  lemma {:induction false} PushElems<T>(t: Tree<T>, x: T, outRanks: (T, T) -> bool)
    ensures Elems(Push(t, x, outRanks)) == Elems(t) + multiset{x}
  {
    if t.Node? {
      if outRanks(x, t.data) {
        if GoesLeft(t) { PushElems(t.left, t.data, outRanks); } else { PushElems(t.right, t.data, outRanks); }
      } else {
        if GoesLeft(t) { PushElems(t.left, x, outRanks); } else { PushElems(t.right, x, outRanks); }
      }
    }
  }

  lemma {:induction false} PushCount<T>(t: Tree<T>, x: T, outRanks: (T, T) -> bool)
    ensures Nodes(Push(t, x, outRanks)) == Nodes(t) + 1
  {
    if t.Node? {
      PushCount(if GoesLeft(t) then t.left else t.right, if outRanks(x, t.data) then t.data else x, outRanks);
    }
  }

  lemma PushTop<T>(t: Tree<T>, x: T, outRanks: (T, T) -> bool)
    ensures Push(t, x, outRanks).data == if t.Node? && !outRanks(x, t.data) then t.data else x
  {
  }

  lemma {:induction false} PushSizes<T>(t: Tree<T>, x: T, outRanks: (T, T) -> bool)
    requires SizesOk(t)
    ensures SizesOk(Push(t, x, outRanks))
  {
    PushCount(t, x, outRanks);
    if t.Node? {
      var lower := if outRanks(x, t.data) then t.data else x;
      if GoesLeft(t) {
        PushSizes(t.left, lower, outRanks);
      } else {
        PushSizes(t.right, lower, outRanks);
      }
    }
  }

  lemma {:induction false} PushOrders<T(!new)>(t: Tree<T>, x: T, outRanks: (T, T) -> bool)
    requires TotalPreorder(outRanks) && Ordered(t, outRanks)
    ensures Ordered(Push(t, x, outRanks), outRanks)
  {
    if t.Node? {
      var sub := if GoesLeft(t) then t.left else t.right;
      var lower := if outRanks(x, t.data) then t.data else x;
      PushOrders(sub, lower, outRanks);
      PushTop(sub, lower, outRanks);
      if outRanks(x, t.data) {
        assert !outRanks(t.data, x);
      }
    }
  }

  /** A push adds the item, keeps the order and the cached sizes, and changes the top only for an
      item that outranks it. */
  lemma PushKeepsHeap<T(!new)>(t: Tree<T>, x: T, outRanks: (T, T) -> bool)
    requires TotalPreorder(outRanks) && WellFormed(t, outRanks)
    ensures WellFormed(Push(t, x, outRanks), outRanks)
    ensures Elems(Push(t, x, outRanks)) == Elems(t) + multiset{x}
    ensures Peek(Push(t, x, outRanks)) == if t.Node? && !outRanks(x, t.data) then Peek(t) else Some(x)
  {
    PushElems(t, x, outRanks);
    PushTop(t, x, outRanks);
    PushSizes(t, x, outRanks);
    PushOrders(t, x, outRanks);
  }

  lemma {:induction false} PopElems<T>(t: Tree<T>, outRanks: (T, T) -> bool)
    requires t.Node?
    ensures Elems(t) == Elems(Pop(t, outRanks)) + multiset{t.data}
    ensures Nodes(Pop(t, outRanks)) == Nodes(t) - 1
  {
    if t.left.Node? || t.right.Node? {
      PopElems(if PicksLeft(t, outRanks) then t.left else t.right, outRanks);
    }
  }

  lemma {:induction false} PopSizes<T>(t: Tree<T>, outRanks: (T, T) -> bool)
    requires t.Node? && SizesOk(t)
    ensures SizesOk(Pop(t, outRanks))
  {
    PopElems(t, outRanks);
    if t.left.Node? || t.right.Node? {
      PopSizes(if PicksLeft(t, outRanks) then t.left else t.right, outRanks);
    }
  }

  lemma {:induction false} PopOrders<T(!new)>(t: Tree<T>, outRanks: (T, T) -> bool)
    requires TotalPreorder(outRanks) && t.Node? && Ordered(t, outRanks)
    ensures Ordered(Pop(t, outRanks), outRanks)
  {
    if t.left.Node? || t.right.Node? {
      PopOrders(if PicksLeft(t, outRanks) then t.left else t.right, outRanks);
    }
  }

  /** A pop takes out the top alone and keeps the order and the cached sizes. */
  lemma PopKeepsHeap<T(!new)>(t: Tree<T>, outRanks: (T, T) -> bool)
    requires TotalPreorder(outRanks) && t.Node? && WellFormed(t, outRanks)
    ensures WellFormed(Pop(t, outRanks), outRanks)
    ensures Elems(t) == Elems(Pop(t, outRanks)) + multiset{t.data}
  {
    PopElems(t, outRanks);
    PopSizes(t, outRanks);
    PopOrders(t, outRanks);
  }

  lemma {:induction false} RemoveElems<T>(t: Tree<T>, x: T, outRanks: (T, T) -> bool)
    requires Remove(t, x, outRanks).Some?
    ensures x in Elems(t)
    ensures Elems(t) == Elems(Remove(t, x, outRanks).value) + multiset{x}
    ensures Nodes(Remove(t, x, outRanks).value) == Nodes(t) - 1
  {
    hide Pop;
    if x == t.data {
      PopElems(t, outRanks);
    } else if Remove(t.left, x, outRanks).Some? {
      RemoveElems(t.left, x, outRanks);
    } else {
      RemoveElems(t.right, x, outRanks);
    }
  }

  lemma {:induction false} RemoveSizes<T>(t: Tree<T>, x: T, outRanks: (T, T) -> bool)
    requires SizesOk(t) && Remove(t, x, outRanks).Some?
    ensures SizesOk(Remove(t, x, outRanks).value)
  {
    hide Elems, Pop;
    RemoveElems(t, x, outRanks);
    if x == t.data {
      PopSizes(t, outRanks);
    } else if Remove(t.left, x, outRanks).Some? {
      RemoveElems(t.left, x, outRanks);
      RemoveSizes(t.left, x, outRanks);
    } else {
      RemoveElems(t.right, x, outRanks);
      RemoveSizes(t.right, x, outRanks);
    }
  }

  lemma {:induction false} RemoveOrders<T(!new)>(t: Tree<T>, x: T, outRanks: (T, T) -> bool)
    requires TotalPreorder(outRanks) && Ordered(t, outRanks) && Remove(t, x, outRanks).Some?
    ensures var r := Remove(t, x, outRanks).value;
            Ordered(r, outRanks) && (r.Node? ==> !outRanks(r.data, t.data))
  {
    hide Pop;
    if x == t.data {
      var r := Pop(t, outRanks);
      PopOrders(t, outRanks);
      if r.Node? {
        PopElems(t, outRanks);
        assert r.data in Elems(r);
        TopIsMaximal(t, r.data, outRanks);
      }
    } else if Remove(t.left, x, outRanks).Some? {
      RemoveOrders(t.left, x, outRanks);
    } else {
      RemoveOrders(t.right, x, outRanks);
    }
  }

  lemma RemoveKeepsHeap<T(!new)>(t: Tree<T>, x: T, outRanks: (T, T) -> bool)
    requires TotalPreorder(outRanks) && WellFormed(t, outRanks)
    requires Remove(t, x, outRanks).Some?
    ensures var r := Remove(t, x, outRanks).value;
            WellFormed(r, outRanks) && (r.Node? ==> !outRanks(r.data, t.data))
  {
    RemoveSizes(t, x, outRanks);
    RemoveOrders(t, x, outRanks);
  }

  lemma {:induction false} RemoveFinds<T(!new)>(t: Tree<T>, x: T, outRanks: (T, T) -> bool)
    requires TotalPreorder(outRanks) && Ordered(t, outRanks) && x in Elems(t)
    ensures Remove(t, x, outRanks).Some?
  {
    TopIsMaximal(t, x, outRanks);
    if x in Elems(t.left) {
      RemoveFinds(t.left, x, outRanks);
    } else if x in Elems(t.right) {
      RemoveFinds(t.right, x, outRanks);
    }
  }

  /** The rank-pruned search finds `x` exactly when it is in the heap and takes out that one
      occurrence; the top stays unless it is `x`. On a miss the result is None: no new tree. */
  lemma RemoveIsComplete<T(!new)>(t: Tree<T>, x: T, outRanks: (T, T) -> bool)
    requires TotalPreorder(outRanks) && WellFormed(t, outRanks)
    ensures Remove(t, x, outRanks).Some? <==> x in Elems(t)
    ensures x in Elems(t) ==>
              var r := Remove(t, x, outRanks).value;
              && WellFormed(r, outRanks)
              && Elems(t) == Elems(r) + multiset{x}
              && (t.data != x ==> Peek(r) == Peek(t))
  {
    if x in Elems(t) {
      RemoveFinds(t, x, outRanks);
      RemoveKeepsHeap(t, x, outRanks);
    }
    if Remove(t, x, outRanks).Some? {
      RemoveElems(t, x, outRanks);
    }
  }

  // ---------- Draining ----------

  /** Everything popped from the heap until it is empty. */
  function Drain<T>(t: Tree<T>, outRanks: (T, T) -> bool): seq<T>
    decreases Nodes(t)
  {
    if t.Leaf? then []
    else
      PopElems(t, outRanks);
      [t.data] + Drain(Pop(t, outRanks), outRanks)
  }

  /** A heap filled by pushes alone, in the order of `xs`. */
  function PushAll<T>(xs: seq<T>, outRanks: (T, T) -> bool): Tree<T> {
    if xs == [] then Leaf
    else Push(PushAll(xs[..|xs| - 1], outRanks), xs[|xs| - 1], outRanks)
  }

  lemma {:induction false} PushAllElems<T>(xs: seq<T>, outRanks: (T, T) -> bool)
    ensures Elems(PushAll(xs, outRanks)) == multiset(xs)
    ensures Nodes(PushAll(xs, outRanks)) == |xs|
  {
    if xs != [] {
      var init, last := xs[..|xs| - 1], xs[|xs| - 1];
      PushAllElems(init, outRanks);
      PushElems(PushAll(init, outRanks), last, outRanks);
      PushCount(PushAll(init, outRanks), last, outRanks);
      assert xs == init + [last];
    }
  }

  lemma {:induction false} PushAllIsHeap<T(!new)>(xs: seq<T>, outRanks: (T, T) -> bool)
    requires TotalPreorder(outRanks)
    ensures WellFormed(PushAll(xs, outRanks), outRanks)
  {
    if xs != [] {
      var init, last := xs[..|xs| - 1], xs[|xs| - 1];
      PushAllIsHeap(init, outRanks);
      PushSizes(PushAll(init, outRanks), last, outRanks);
      PushOrders(PushAll(init, outRanks), last, outRanks);
    }
  }

  ghost predicate NonIncreasing<T>(xs: seq<T>, outRanks: (T, T) -> bool) {
    forall i, j :: 0 <= i < j < |xs| ==> !outRanks(xs[j], xs[i])
  }

  lemma {:induction false} DrainElems<T>(t: Tree<T>, outRanks: (T, T) -> bool)
    ensures multiset(Drain(t, outRanks)) == Elems(t)
    decreases Nodes(t)
  {
    if t.Node? {
      PopElems(t, outRanks);
      DrainElems(Pop(t, outRanks), outRanks);
    }
  }

  lemma {:induction false} DrainSorts<T(!new)>(t: Tree<T>, outRanks: (T, T) -> bool)
    requires TotalPreorder(outRanks) && WellFormed(t, outRanks)
    ensures NonIncreasing(Drain(t, outRanks), outRanks)
    decreases Nodes(t)
  {
    if t.Node? {
      PopElems(t, outRanks);
      PopKeepsHeap(t, outRanks);
      var rest := Drain(Pop(t, outRanks), outRanks);
      DrainSorts(Pop(t, outRanks), outRanks);
      DrainElems(Pop(t, outRanks), outRanks);
      forall j | 0 <= j < |rest| ensures !outRanks(rest[j], t.data) {
        assert rest[j] in multiset(rest);
        TopIsMaximal(t, rest[j], outRanks);
      }
    }
  }

  /** Pushing any items and draining the heap gives a permutation of them, best rank first. */
  lemma PushThenDrainSorts<T(!new)>(xs: seq<T>, outRanks: (T, T) -> bool)
    requires TotalPreorder(outRanks)
    ensures multiset(Drain(PushAll(xs, outRanks), outRanks)) == multiset(xs)
    ensures NonIncreasing(Drain(PushAll(xs, outRanks), outRanks), outRanks)
  {
    PushAllElems(xs, outRanks);
    PushAllIsHeap(xs, outRanks);
    DrainElems(PushAll(xs, outRanks), outRanks);
    DrainSorts(PushAll(xs, outRanks), outRanks);
  }

  // ---------- Balance ----------

  ghost function Tilt<T>(t: Tree<T>): int
    requires t.Node?
  {
    Nodes(t.left) - Nodes(t.right)
  }

  /** The left subtree is as large as the right one or one larger, at every node. */
  ghost predicate Balanced<T>(t: Tree<T>) {
    t.Node? ==> 0 <= Tilt(t) <= 1 && Balanced(t.left) && Balanced(t.right)
  }

  function Pow2(n: nat): nat {
    if n == 0 then 1 else 2 * Pow2(n - 1)
  }

  /** `after` has the nodes of `before`, with at every one of them a tilt that is no larger than
      before or at most one. */
  ghost predicate TiltsNoWorse<T>(before: Tree<T>, after: Tree<T>) {
    before.Node? ==>
      && after.Node?
      && (Abs(Tilt(after)) <= 1 || Abs(Tilt(after)) <= Abs(Tilt(before)))
      && TiltsNoWorse(before.left, after.left)
      && TiltsNoWorse(before.right, after.right)
  }

  ghost function Abs(n: int): nat {
    if n < 0 then -n else n
  }

  lemma {:induction false} TiltsReflexive<T>(t: Tree<T>)
    ensures TiltsNoWorse(t, t)
  {
    if t.Node? {
      TiltsReflexive(t.left);
      TiltsReflexive(t.right);
    }
  }

  /** On any heap, however unbalanced by removals, a push leaves no node more tilted than
      before, unless by one. */
  lemma {:induction false} PushNeverUnbalances<T>(t: Tree<T>, x: T, outRanks: (T, T) -> bool)
    requires SizesOk(t)
    ensures TiltsNoWorse(t, Push(t, x, outRanks))
    ensures Balanced(t) ==> Balanced(Push(t, x, outRanks))
  {
    if t.Node? {
      var lower := if outRanks(x, t.data) then t.data else x;
      if GoesLeft(t) {
        PushCount(t.left, lower, outRanks);
        PushNeverUnbalances(t.left, lower, outRanks);
        TiltsReflexive(t.right);
      } else {
        PushCount(t.right, lower, outRanks);
        PushNeverUnbalances(t.right, lower, outRanks);
        TiltsReflexive(t.left);
      }
    }
  }

  lemma {:induction false} BalancedIsShallow<T>(t: Tree<T>)
    requires Balanced(t) && t.Node?
    ensures Pow2(Height(t) - 1) <= Nodes(t)
  {
    if t.left.Node? {
      BalancedIsShallow(t.left);
      if t.right.Node? {
        BalancedIsShallow(t.right);
      }
    }
  }

  lemma {:induction false} PushAllSizes<T>(xs: seq<T>, outRanks: (T, T) -> bool)
    ensures SizesOk(PushAll(xs, outRanks))
  {
    if xs != [] {
      var init := xs[..|xs| - 1];
      PushAllSizes(init, outRanks);
      PushSizes(PushAll(init, outRanks), xs[|xs| - 1], outRanks);
    }
  }

  /** A heap built by pushes alone has height at most log2 of its size, rounded down, plus one,
      whatever the ranking. */
  lemma {:induction false} PushAllIsBalanced<T>(xs: seq<T>, outRanks: (T, T) -> bool)
    ensures Balanced(PushAll(xs, outRanks))
    ensures xs != [] ==> Pow2(Height(PushAll(xs, outRanks)) - 1) <= |xs|
  {
    hide Push, Elems;
    if xs != [] {
      var init, last := xs[..|xs| - 1], xs[|xs| - 1];
      PushAllIsBalanced(init, outRanks);
      PushAllSizes(init, outRanks);
      PushNeverUnbalances(PushAll(init, outRanks), last, outRanks);
      BalancedIsShallow(PushAll(xs, outRanks));
      PushAllElems(xs, outRanks);
    }
  }
}
