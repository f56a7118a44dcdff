/**
  The adapter registry of gps/core/LocApiBase.cpp: a fixed array kept without holes, for any
  capacity (the source's MAX_ADAPTERS is 10).
 */
module LocApiBase {
  /** An event mask as the set of the positions of its bits. */
  type Mask = set<nat>

  class LocAdapter {
    var evtMask: Mask

    constructor (evtMask: Mask)
      ensures this.evtMask == evtMask
    {
      this.evtMask := evtMask;
    }
  }

  /** The calls that reach the modem side: an open message with a mask, or close(). */
  datatype Action = Open(mask: Mask) | Close

  // ---------- The registry as a sequence ----------

  function Added(s: seq<LocAdapter>, adapter: LocAdapter?, capacity: nat): seq<LocAdapter> {
    if adapter == null || adapter in s || |s| >= capacity then s else s + [adapter]
  }

  function IndexOf(s: seq<LocAdapter>, adapter: LocAdapter?): (k: nat)
    ensures k <= |s| && (k < |s| ==> s[k] == adapter) && (k == |s| <==> adapter !in s)
    ensures forall i :: 0 <= i < k ==> s[i] != adapter
  {
    if s == [] || s[0] == adapter then 0 else 1 + IndexOf(s[1..], adapter)
  }

  /** The last adapter takes the place of the removed one. */
  function Removed(s: seq<LocAdapter>, adapter: LocAdapter?): seq<LocAdapter> {
    var k := IndexOf(s, adapter);
    if k == |s| then s else s[k := s[|s| - 1]][..|s| - 1]
  }

  /** The union of the masks that the adapters have now. */
  ghost function MaskOf(s: seq<LocAdapter>): Mask
    reads s
  {
    if s == [] then {} else MaskOf(s[..|s| - 1]) + s[|s| - 1].evtMask
  }

  ghost predicate Distinct(s: seq<LocAdapter>) {
    forall i, j :: 0 <= i < j < |s| ==> s[i] != s[j]
  }

  ghost function Members(s: seq<LocAdapter>): set<LocAdapter> {
    set a | a in s
  }

  class LocApiBase {
    const mLocAdapters: array<LocAdapter?>
    const mExcludedMask: Mask
    var actions: seq<Action>
    ghost var adapters: seq<LocAdapter>

    /** The array is a prefix of distinct adapters, without holes, and NULL behind. */
    ghost predicate Valid()
      reads this, mLocAdapters
    {
      && |adapters| <= mLocAdapters.Length && Distinct(adapters)
      && (forall i :: 0 <= i < |adapters| ==> mLocAdapters[i] == adapters[i])
      && (forall i :: |adapters| <= i < mLocAdapters.Length ==> mLocAdapters[i] == null)
    }

    constructor (capacity: nat, excludedMask: Mask)
      ensures Valid() && adapters == [] && actions == []
      ensures mLocAdapters.Length == capacity && mExcludedMask == excludedMask && fresh(mLocAdapters)
    {
      mLocAdapters := new LocAdapter?[capacity](_ => null);
      mExcludedMask := excludedMask;
      actions := [];
      adapters := [];
    }

    /** The scan stops at the first NULL and yet sees every adapter. */
    method GetEvtMask() returns (result: Mask)
      requires Valid()
      ensures result == MaskOf(adapters) - mExcludedMask
    {
      var mask: Mask := {};
      var i := 0;
      while i < mLocAdapters.Length && mLocAdapters[i] != null
        invariant 0 <= i <= |adapters| && mask == MaskOf(adapters[..i])
      {
        assert adapters[..i + 1][..i] == adapters[..i];
        mask := mask + mLocAdapters[i].evtMask;
        i := i + 1;
      }
      assert adapters[..i] == adapters;
      result := mask - mExcludedMask;
    }

    method AddAdapter(adapter: LocAdapter?)
      requires Valid()
      modifies this, mLocAdapters
      ensures Valid() && adapters == Added(old(adapters), adapter, mLocAdapters.Length)
      ensures actions == if adapters == old(adapters) then old(actions) else old(actions) + [Open(adapter.evtMask)]
    {
      var i := 0;
      while i < mLocAdapters.Length && mLocAdapters[i] != adapter
        invariant 0 <= i <= |adapters| && Valid() && adapters == old(adapters) && actions == old(actions)
        invariant forall j :: 0 <= j < i ==> adapters[j] != adapter
        decreases mLocAdapters.Length - i
      {
        if mLocAdapters[i] == null {
          mLocAdapters[i] := adapter;
          actions := actions + [Open(adapter.evtMask)];
          adapters := adapters + [adapter];
          return;
        }
        i := i + 1;
      }
    }

    /** removeAdapter when it has found the adapter at index `j`: the index `i` runs on to the last
        adapter, which is moved to `j`; it is handed back to the outer loop. */
    method TakeOut(j: nat) returns (i: nat)
      requires Valid() && j < |adapters|
      modifies this, mLocAdapters
      ensures Valid() && adapters == Removed(old(adapters), old(adapters)[j]) && i == |adapters|
      ensures |adapters| == |old(adapters)| - 1 && actions == old(actions)
    {
      DistinctIndex(adapters, j);
      mLocAdapters[j] := null;
      i := j + 1;
      while i < mLocAdapters.Length && mLocAdapters[i] != null
        invariant j < i <= |adapters|
        invariant mLocAdapters[..] == old(mLocAdapters[..])[j := null]
      {
        i := i + 1;
      }
      i := i - 1;
      mLocAdapters[j] := mLocAdapters[i];
      mLocAdapters[i] := null;
      adapters := adapters[j := adapters[|adapters| - 1]][..|adapters| - 1];
    }

    /** After TakeOut the outer loop's own increment leads behind the last adapter, so it ends. */
    method RemoveAdapter(adapter: LocAdapter?)
      requires Valid()
      modifies this, mLocAdapters
      ensures Valid() && adapters == Removed(old(adapters), adapter)
      ensures actions == if adapter == null || adapter !in old(adapters) then old(actions)
                         else if adapters == [] then old(actions) + [Close]
                         else old(actions) + [Open(MaskOf(adapters) - mExcludedMask)]
    {
      hide Removed, IndexOf, MaskOf, Distinct;
      var i := 0;
      while i < mLocAdapters.Length && mLocAdapters[i] != null
        invariant Valid() && 0 <= i
        invariant i <= |adapters| ==> adapters == old(adapters) && actions == old(actions) && adapter !in adapters[..i]
        invariant i > |adapters| ==>
                    && i == |adapters| + 1 && adapter in old(adapters) && adapters == Removed(old(adapters), adapter)
                    && actions == old(actions) + [if adapters == [] then Close else Open(MaskOf(adapters) - mExcludedMask)]
        decreases mLocAdapters.Length - i
      {
        assert i < |adapters|;
        if mLocAdapters[i] == adapter {
          i := TakeOut(i);
          if i == 0 {
            actions := actions + [Close];
          } else {
            var mask := GetEvtMask();
            actions := actions + [Open(mask)];
          }
        }
        i := i + 1;
      }
      NotRemoved(adapters, adapter);
    }
  }

  lemma DistinctIndex(s: seq<LocAdapter>, j: nat)
    requires Distinct(s) && j < |s|
    ensures IndexOf(s, s[j]) == j
  {
  }

  lemma NotRemoved(s: seq<LocAdapter>, adapter: LocAdapter?)
    ensures adapter !in s ==> Removed(s, adapter) == s
  {
  }

  // ---------- Runs of additions and removals ----------

  datatype Op = Add(adapter: LocAdapter?) | Remove(adapter: LocAdapter?)

  function Run(ops: seq<Op>, capacity: nat): seq<LocAdapter> {
    if ops == [] then []
    else
      var s := Run(ops[..|ops| - 1], capacity);
      match ops[|ops| - 1]
      case Add(a) => Added(s, a, capacity)
      case Remove(a) => Removed(s, a)
  }

  /** The same run on a set of at most `capacity` members. */
  ghost function RunOnSet(ops: seq<Op>, capacity: nat): set<LocAdapter> {
    if ops == [] then {}
    else
      var s := RunOnSet(ops[..|ops| - 1], capacity);
      match ops[|ops| - 1]
      case Add(a) => if a == null || |s| >= capacity then s else s + {a}
      case Remove(a) => if a == null then s else s - {a}
  }

  lemma {:induction false} MembersCount(s: seq<LocAdapter>)
    requires Distinct(s)
    ensures |Members(s)| == |s|
  {
    if s != [] {
      var init, last := s[..|s| - 1], s[|s| - 1];
      MembersCount(init);
      assert s == init + [last];
      assert Members(s) == Members(init) + {last};
    } else {
      assert Members(s) == {};
    }
  }

  lemma RemovedMembers(s: seq<LocAdapter>, adapter: LocAdapter?)
    requires Distinct(s)
    ensures Distinct(Removed(s, adapter))
    ensures Members(Removed(s, adapter)) == if adapter == null then Members(s) else Members(s) - {adapter}
  {
    var k := IndexOf(s, adapter);
    if k < |s| {
      var n := |s| - 1;
      var r := Removed(s, adapter);
      forall a | a in Members(s) - {s[k]} ensures a in r {
        var i :| 0 <= i < |s| && s[i] == a;
        assert if i == n then r[k] == a else r[i] == a;
      }
    }
  }

  /** Over any run, for any capacity, the array holds each member of a bounded set once. */
  lemma {:induction false} RegistryRefinesSet(ops: seq<Op>, capacity: nat)
    ensures Distinct(Run(ops, capacity)) && |Run(ops, capacity)| <= capacity
    ensures Members(Run(ops, capacity)) == RunOnSet(ops, capacity)
  {
    if ops != [] {
      var init := ops[..|ops| - 1];
      RegistryRefinesSet(init, capacity);
      var s := Run(init, capacity);
      MembersCount(s);
      match ops[|ops| - 1]
      case Add(a) =>
        if Added(s, a, capacity) != s {
          assert Members(s + [a]) == Members(s) + {a};
        }
      case Remove(a) => RemovedMembers(s, a);
    }
  }

  /** The mask that is opened covers an event if and only if some registered adapter wants it. */
  lemma {:induction false} MaskIsUnion(s: seq<LocAdapter>, bit: nat)
    ensures bit in MaskOf(s) <==> exists a :: a in s && bit in a.evtMask
  {
    if s != [] {
      var init, last := s[..|s| - 1], s[|s| - 1];
      MaskIsUnion(init, bit);
      assert s == init + [last];
    }
  }
}
