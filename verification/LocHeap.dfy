/**
  The rank heap of gps/utils/LocHeap.cpp as the linked structure it is. A reference parameter
  `LocHeapNode*& top` becomes a second out-parameter that the caller stores back into the field.

  A ghost `Shape` says which node hangs where. It is a value, so "no link changes" is an equation
  between shapes, and the data that push and pop swap along the links are read off by `Model`.
 */
module LocHeap {
  import opened Wrappers
  import opened LocHeapSpec

  datatype Shape<T(==)> = Nil | Fork(node: LocHeapNode<T>, left: Shape<T>, right: Shape<T>)

  ghost function NodesOf<T>(s: Shape<T>): set<LocHeapNode<T>> {
    if s.Nil? then {} else {s.node} + NodesOf(s.left) + NodesOf(s.right)
  }

  ghost function TopOf<T>(s: Shape<T>): LocHeapNode?<T> {
    if s.Nil? then null else s.node
  }

  /** No node hangs in two places. */
  ghost predicate Unshared<T>(s: Shape<T>) {
    s.Fork? ==>
      && s.node !in NodesOf(s.left) && s.node !in NodesOf(s.right)
      && NodesOf(s.left) !! NodesOf(s.right)
      && Unshared(s.left) && Unshared(s.right)
  }

  /** The fields mLeft and mRight are as `s` says. */
  ghost predicate Linked<T>(s: Shape<T>)
    reads NodesOf(s)
  {
    s.Fork? ==>
      && s.node.mLeft == TopOf(s.left) && s.node.mRight == TopOf(s.right)
      && Linked(s.left) && Linked(s.right)
  }

  /** The heap as a value. */
  ghost function Model<T>(s: Shape<T>): Tree<T>
    reads NodesOf(s)
  {
    if s.Nil? then Leaf else Node(s.node.mSize, s.node.mData, Model(s.left), Model(s.right))
  }

  /** `r` is `s` with the single node `n` hung where `s` had nothing. */
  ghost predicate HangsOn<T>(s: Shape<T>, n: LocHeapNode<T>, r: Shape<T>) {
    if s.Nil? then r == Fork(n, Nil, Nil)
    else
      && r.Fork? && r.node == s.node
      && ((HangsOn(s.left, n, r.left) && r.right == s.right) || (r.left == s.left && HangsOn(s.right, n, r.right)))
  }

  lemma {:induction false} HangingAddsOneNode<T>(s: Shape<T>, n: LocHeapNode<T>, r: Shape<T>)
    requires HangsOn(s, n, r) && Unshared(s) && n !in NodesOf(s)
    ensures Unshared(r) && NodesOf(r) == NodesOf(s) + {n}
  {
    if s.Fork? {
      if HangsOn(s.left, n, r.left) && r.right == s.right {
        HangingAddsOneNode(s.left, n, r.left);
      } else {
        HangingAddsOneNode(s.right, n, r.right);
      }
    }
  }

  lemma {:induction false} UnhangingTakesOneNode<T>(s: Shape<T>, n: LocHeapNode<T>, r: Shape<T>)
    requires HangsOn(r, n, s) && Unshared(s)
    ensures Unshared(r) && NodesOf(s) == NodesOf(r) + {n} && n !in NodesOf(r)
  {
    if r.Fork? {
      if HangsOn(r.left, n, s.left) && r.right == s.right {
        UnhangingTakesOneNode(s.left, n, r.left);
      } else {
        UnhangingTakesOneNode(s.right, n, r.right);
      }
    }
  }

  lemma {:induction false} NodesAreAllocated<T>(s: Shape<T>)
    ensures forall n :: n in NodesOf(s) ==> allocated(n)
  {
    if s.Fork? {
      NodesAreAllocated(s.left);
      NodesAreAllocated(s.right);
    }
  }

  class LocHeapNode<T(==)> {
    var mSize: int
    var mLeft: LocHeapNode?<T>
    var mRight: LocHeapNode?<T>
    var mData: T

    constructor (data: T)
      ensures mSize == 1 && mLeft == null && mRight == null && mData == data
    {
      mSize, mLeft, mRight, mData := 1, null, null, data;
    }

    method Push(node: LocHeapNode<T>, outRanks: (T, T) -> bool, ghost s: Shape<T>) returns (ghost r: Shape<T>)
      requires TopOf(s) == this && Unshared(s) && Linked(s)
      requires node !in NodesOf(s) && node.mLeft == null && node.mRight == null && node.mSize == 1
      modifies NodesOf(s), node
      ensures HangsOn(s, node, r) && Linked(r)
      ensures Model(r) == LocHeapSpec.Push(old(Model(s)), old(node.mData), outRanks)
      decreases s, 1
    {
      NodesAreAllocated(s);
      ghost var before := Model(s);
      if outRanks(node.mData, mData) {
        node.mData, mData := mData, node.mData;
      }
      assert Linked(s.left) && Linked(s.right);
      assert Model(s.left) == before.left && Model(s.right) == before.right;
      r := Drop(node, outRanks, s);
      HangingAddsOneNode(s, node, r);
      NodesAreAllocated(r);
      mSize := mSize + 1;
    }

    /** The second half of push: the new node, by now the lower-ranking one, goes into a subtree. */
    method Drop(node: LocHeapNode<T>, outRanks: (T, T) -> bool, ghost s: Shape<T>) returns (ghost r: Shape<T>)
      requires TopOf(s) == this && Unshared(s) && Linked(s)
      requires node !in NodesOf(s) && node.mLeft == null && node.mRight == null && node.mSize == 1
      modifies NodesOf(s), node
      ensures HangsOn(s, node, r) && Linked(r)
      ensures var t, x := old(Model(s)), old(node.mData);
              Model(r) == if GoesLeft(t) then Node(t.size, t.data, LocHeapSpec.Push(t.left, x, outRanks), t.right)
                          else Node(t.size, t.data, t.left, LocHeapSpec.Push(t.right, x, outRanks))
      decreases s, 0
    {
      NodesAreAllocated(s);
      ghost var before, x := Model(s), node.mData;
      ghost var left, right := s.left, s.right;
      assert Model(s.left) == before.left && Model(s.right) == before.right;
      if mLeft == null {
        mLeft := node;
        left := Fork(node, Nil, Nil);
        assert Model(left) == LocHeapSpec.Push(Leaf, x, outRanks);
      } else if mRight == null {
        mRight := node;
        right := Fork(node, Nil, Nil);
        assert Model(right) == LocHeapSpec.Push(Leaf, x, outRanks);
      } else if mLeft.mSize <= mRight.mSize {
        left := mLeft.Push(node, outRanks, s.left);
      } else {
        right := mRight.Push(node, outRanks, s.right);
      }
      assert Linked(left) && Linked(right) && mLeft == TopOf(left) && mRight == TopOf(right);
      assert Model(left) == if GoesLeft(before) then LocHeapSpec.Push(before.left, x, outRanks) else before.left;
      assert Model(right) == if GoesLeft(before) then before.right else LocHeapSpec.Push(before.right, x, outRanks);
      r := Fork(this, left, right);
      HangingAddsOneNode(s, node, r);
    }

    /** The popped node is a former leaf, detached, that carries the data of the old top; no link
        changes but the one to it, which becomes NULL. */
    static method Pop(top: LocHeapNode<T>, outRanks: (T, T) -> bool, ghost s: Shape<T>)
      returns (popped: LocHeapNode<T>, newTop: LocHeapNode?<T>, ghost r: Shape<T>)
      requires TopOf(s) == top && Unshared(s) && Linked(s)
      modifies NodesOf(s)
      ensures HangsOn(r, popped, s) && Linked(r) && newTop == TopOf(r)
      ensures popped.mLeft == null && popped.mRight == null && popped.mData == old(top.mData)
      ensures Model(r) == LocHeapSpec.Pop(old(Model(s)), outRanks)
      decreases s, 1
    {
      NodesAreAllocated(s);
      ghost var before := Model(s);
      popped, newTop, r := top, top, Nil;
      top.mSize := top.mSize - 1;
      assert Model(s.left) == before.left && Model(s.right) == before.right;
      assert Linked(s.left) && Linked(s.right);
      if top.mLeft != null || top.mRight != null {
        popped, r := top.PopChild(outRanks, s);
      } else {
        newTop := null;
      }
    }

    /** The case of pop where the top has a child to swap its data with. */
    method PopChild(outRanks: (T, T) -> bool, ghost s: Shape<T>) returns (popped: LocHeapNode<T>, ghost r: Shape<T>)
      requires TopOf(s) == this && Unshared(s) && Linked(s) && (mLeft != null || mRight != null)
      modifies NodesOf(s)
      ensures HangsOn(r, popped, s) && Linked(r) && TopOf(r) == this
      ensures popped.mLeft == null && popped.mRight == null && popped.mData == old(mData)
      ensures var t := old(Model(s));
              && (t.left.Node? || t.right.Node?)
              && Model(r) == if PicksLeft(t, outRanks) then Node(t.size, t.left.data, LocHeapSpec.Pop(t.left, outRanks), t.right)
                          else Node(t.size, t.right.data, t.left, LocHeapSpec.Pop(t.right, outRanks))
      decreases s, 0
    {
      NodesAreAllocated(s);
      ghost var before := Model(s);
      ghost var left, right := s.left, s.right;
      assert Model(s.left) == before.left && Model(s.right) == before.right;
      if mLeft != null && (mRight == null || outRanks(mLeft.mData, mRight.mData)) {
        var subTop := mLeft;
        popped, subTop, left := SwapAndPop(subTop, outRanks, s.left);
        UnhangingTakesOneNode(s.left, popped, left);
        mLeft := subTop;
      } else {
        var subTop := mRight;
        popped, subTop, right := SwapAndPop(subTop, outRanks, s.right);
        UnhangingTakesOneNode(s.right, popped, right);
        mRight := subTop;
      }
      assert Linked(left) && Linked(right);
      assert Model(left) == if PicksLeft(before, outRanks) then LocHeapSpec.Pop(before.left, outRanks) else before.left;
      assert Model(right) == if PicksLeft(before, outRanks) then before.right else LocHeapSpec.Pop(before.right, outRanks);
      r := Fork(this, left, right);
    }

    /** Swaps the data of this node and the top of a subtree `sub`, then pops from the subtree. */
    method SwapAndPop(subTop: LocHeapNode<T>, outRanks: (T, T) -> bool, ghost sub: Shape<T>)
      returns (popped: LocHeapNode<T>, newSub: LocHeapNode?<T>, ghost r: Shape<T>)
      requires TopOf(sub) == subTop && Unshared(sub) && Linked(sub) && this !in NodesOf(sub)
      modifies `mData, NodesOf(sub)
      ensures HangsOn(r, popped, sub) && Linked(r) && newSub == TopOf(r)
      ensures popped.mLeft == null && popped.mRight == null
      ensures popped.mData == old(mData) && mData == old(subTop.mData)
      ensures Model(r) == LocHeapSpec.Pop(old(Model(sub)), outRanks)
      decreases sub, 2
    {
      NodesAreAllocated(sub);
      ghost var before := Model(sub);
      PopIgnoresTop(before, mData, outRanks);
      mData, subTop.mData := subTop.mData, mData;
      assert Linked(sub.left) && Linked(sub.right);
      assert Model(sub.left) == before.left && Model(sub.right) == before.right;
      popped, newSub, r := Pop(subTop, outRanks, sub);
    }

    /** Searches for the node with data `x`, skipping subtrees that `x` outranks, and pops it out.
        A search that fails leaves every node as it was. */
    static method Remove(top: LocHeapNode<T>, x: T, outRanks: (T, T) -> bool, ghost s: Shape<T>)
      returns (removed: LocHeapNode?<T>, newTop: LocHeapNode?<T>, ghost r: Shape<T>)
      requires TopOf(s) == top && Unshared(s) && Linked(s)
      modifies NodesOf(s)
      ensures newTop == TopOf(r) && Linked(r)
      ensures match LocHeapSpec.Remove(old(Model(s)), x, outRanks)
              case None => removed == null && r == s && Model(s) == old(Model(s))
              case Some(t) =>
                && removed != null && HangsOn(r, removed, s) && Model(r) == t
                && removed.mLeft == null && removed.mRight == null && removed.mData == x
      decreases s, 1
    {
      NodesAreAllocated(s);
      removed, newTop, r := null, top, s;
      if x == top.mData {
        removed, newTop, r := Pop(top, outRanks, s);
      } else if !outRanks(x, top.mData) {
        removed, r := top.RemoveBelow(x, outRanks, s);
        if removed != null {
          UnhangingTakesOneNode(s, removed, r);
          ghost var left, right := Model(r.left), Model(r.right);
          top.mSize := top.mSize - 1;
          assert Linked(r.left) && Linked(r.right) && Model(r.left) == left && Model(r.right) == right;
        }
      }
    }

    /** The case of remove that goes on into the left subtree and then, if need be, the right one. */
    method RemoveBelow(x: T, outRanks: (T, T) -> bool, ghost s: Shape<T>)
      returns (removed: LocHeapNode?<T>, ghost r: Shape<T>)
      requires TopOf(s) == this && Unshared(s) && Linked(s)
      modifies NodesOf(s)
      ensures TopOf(r) == this && Linked(r)
      ensures removed == null ==> r == s && Model(s) == old(Model(s))
      ensures var t := old(Model(s));
              var inLeft, inRight := LocHeapSpec.Remove(t.left, x, outRanks), LocHeapSpec.Remove(t.right, x, outRanks);
              && (removed != null <==> inLeft.Some? || inRight.Some?)
              && (removed != null ==>
                    && HangsOn(r, removed, s)
                    && removed.mLeft == null && removed.mRight == null && removed.mData == x
                    && Model(r) == if inLeft.Some? then Node(t.size, t.data, inLeft.value, t.right)
                                   else Node(t.size, t.data, t.left, inRight.value))
      decreases s, 0
    {
      NodesAreAllocated(s);
      removed := null;
      ghost var before := Model(s);
      ghost var left, right := s.left, s.right;
      assert Model(s.left) == before.left && Model(s.right) == before.right;
      assert LocHeapSpec.Remove(Leaf, x, outRanks) == None;
      hide LocHeapSpec.Remove;
      if mLeft != null {
        var subTop;
        removed, subTop, left := Remove(mLeft, x, outRanks, s.left);
        if removed != null { UnhangingTakesOneNode(s.left, removed, left); }
        mLeft := subTop;
        assert Linked(left) && Linked(s.right) && mRight == TopOf(s.right) && Model(s.right) == before.right;
      }
      assert Model(left) == if removed == null then before.left else LocHeapSpec.Remove(before.left, x, outRanks).value;
      if removed == null && mRight != null {
        var subTop;
        removed, subTop, right := Remove(mRight, x, outRanks, s.right);
        if removed != null { UnhangingTakesOneNode(s.right, removed, right); }
        mRight := subTop;
        assert Linked(right) && Linked(left) && Model(left) == before.left;
      }
      assert Linked(left) && Linked(right);
      assert Model(right) == if removed == null || LocHeapSpec.Remove(before.left, x, outRanks).Some? then before.right
                             else LocHeapSpec.Remove(before.right, x, outRanks).value;
      r := Fork(this, left, right);
    }

    /** True exactly if the order and every cached size of the subtree are right. */
    method CheckNodes(outRanks: (T, T) -> bool, ghost s: Shape<T>) returns (ok: bool)
      requires TopOf(s) == this && Linked(s)
      ensures ok <==> LocHeapSpec.WellFormed(Model(s), outRanks)
      decreases s
    {
      NodesAreAllocated(s);
      NodesAreAllocated(s.left);
      NodesAreAllocated(s.right);
      LocHeapSpec.CheckNodesIsExact(Model(s), outRanks);
      var totalSize := mSize;
      if mLeft != null {
        LocHeapSpec.CheckNodesIsExact(Model(s.left), outRanks);
        if outRanks(mLeft.mData, mData) {
          return false;
        }
        var leftOk := mLeft.CheckNodes(outRanks, s.left);
        if !leftOk {
          return false;
        }
        totalSize := totalSize - mLeft.mSize;
      }
      if mRight != null {
        LocHeapSpec.CheckNodesIsExact(Model(s.right), outRanks);
        if outRanks(mRight.mData, mData) {
          return false;
        }
        var rightOk := mRight.CheckNodes(outRanks, s.right);
        if !rightOk {
          return false;
        }
        totalSize := totalSize - mRight.mSize;
      }
      ok := totalSize == 1;
    }
  }

  class LocHeap<T(==)> {
    var mTree: LocHeapNode?<T>
    ghost var shape: Shape<T>
    ghost var nodes: set<LocHeapNode<T>>

    ghost predicate Valid()
      reads this, nodes
    {
      nodes == NodesOf(shape) && mTree == TopOf(shape) && Unshared(shape) && Linked(shape)
    }

    /** The heap as a value. */
    ghost function Value(): Tree<T>
      requires Valid()
      reads this, nodes
    {
      Model(shape)
    }

    constructor ()
      ensures Valid() && Value() == Leaf && nodes == {}
    {
      mTree, shape, nodes := null, Nil, {};
    }

    method Push(x: T, outRanks: (T, T) -> bool)
      requires Valid()
      modifies this, nodes
      ensures Valid() && fresh(nodes - old(nodes))
      ensures Value() == LocHeapSpec.Push(old(Value()), x, outRanks)
    {
      var heapNode := new LocHeapNode(x);
      if mTree == null {
        mTree := heapNode;
        shape := Fork(heapNode, Nil, Nil);
      } else {
        ghost var r := mTree.Push(heapNode, outRanks, shape);
        HangingAddsOneNode(shape, heapNode, r);
        shape := r;
      }
      nodes := nodes + {heapNode};
    }

    method Peek() returns (top: Option<T>)
      requires Valid()
      ensures top == LocHeapSpec.Peek(Value())
    {
      top := if mTree == null then None else Some(mTree.mData);
    }

    method Pop(outRanks: (T, T) -> bool) returns (data: Option<T>)
      requires Valid()
      modifies this, nodes
      ensures Valid() && nodes <= old(nodes)
      ensures data == LocHeapSpec.Peek(old(Value()))
      ensures Value() == if old(Value()).Leaf? then Leaf else LocHeapSpec.Pop(old(Value()), outRanks)
    {
      data := None;
      if mTree != null {
        var heapNode;
        ghost var r;
        heapNode, mTree, r := LocHeapNode.Pop(mTree, outRanks, shape);
        UnhangingTakesOneNode(shape, heapNode, r);
        shape, nodes := r, nodes - {heapNode};
        data := Some(heapNode.mData);
      }
    }

    method Remove(x: T, outRanks: (T, T) -> bool) returns (data: Option<T>)
      requires Valid()
      modifies this, nodes
      ensures Valid() && nodes <= old(nodes)
      ensures match LocHeapSpec.Remove(old(Value()), x, outRanks)
              case None => data == None && Value() == old(Value())
              case Some(t) => data == Some(x) && Value() == t
    {
      data := None;
      if mTree != null {
        var heapNode;
        ghost var r;
        heapNode, mTree, r := LocHeapNode.Remove(mTree, x, outRanks, shape);
        if heapNode != null {
          UnhangingTakesOneNode(shape, heapNode, r);
          shape, nodes := r, nodes - {heapNode};
          data := Some(heapNode.mData);
        }
      }
    }
  }
}
