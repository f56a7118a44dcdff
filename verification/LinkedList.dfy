/**
  The doubly linked list of gps/utils/linked_list.c, relinked in place, as a refinement of a
  sequence: add prepends, remove takes the last element, search may delete the first match.
  A NULL handle or data pointer is an error code, as in the source; allocation succeeds.
 */
module LinkedList {
  import opened Wrappers

  datatype Status = Success | InvalidParameter | InvalidHandle | UnavailableResource

  /** The data of an element and whether it came with a dealloc function. */
  datatype Item<T> = Item(data: T, dealloc: bool)

  class ListElement<T> {
    var next: ListElement?<T>
    var prev: ListElement?<T>
    const item: Item<T>

    constructor (item: Item<T>)
      ensures this.item == item && next == null && prev == null
    {
      this.item, next, prev := item, null, null;
    }
  }

  /** The data that freeing `items` in turn passes to their dealloc functions. */
  function Deallocated<T>(items: seq<Item<T>>): seq<T> {
    if items == [] then []
    else (if items[0].dealloc then [items[0].data] else []) + Deallocated(items[1..])
  }

  lemma {:induction false} DeallocatedAppend<T>(items: seq<Item<T>>, item: Item<T>)
    ensures Deallocated(items + [item]) == Deallocated(items) + (if item.dealloc then [item.data] else [])
  {
    if items == [] {
      assert [] + [item] == [item];
    } else {
      DeallocatedAppend(items[1..], item);
      assert (items + [item])[1..] == items[1..] + [item];
    }
  }

  ghost function ItemsOf<T>(nodes: seq<ListElement<T>>): (items: seq<Item<T>>)
    ensures |items| == |nodes|
  {
    seq(|nodes|, i requires 0 <= i < |nodes| => nodes[i].item)
  }

  class List<T> {
    var head: ListElement?<T>
    var tail: ListElement?<T>
    ghost var nodes: seq<ListElement<T>>
    ghost var freed: seq<T>  // what dealloc functions were called on, in order

    ghost predicate Valid()
      reads this, nodes
    {
      && (forall i, j :: 0 <= i < j < |nodes| ==> nodes[i] != nodes[j])
      && (nodes == [] ==> head == null && tail == null)
      && (nodes != [] ==>
            && head == nodes[0] && nodes[0].prev == null
            && tail == nodes[|nodes| - 1] && nodes[|nodes| - 1].next == null)
      && (forall i {:trigger nodes[i].next} :: 0 <= i < |nodes| - 1 ==> nodes[i].next == nodes[i + 1])
      && (forall i {:trigger nodes[i].prev} :: 1 <= i < |nodes| ==> nodes[i].prev == nodes[i - 1])
    }

    /** The list as a sequence, from the head. */
    ghost function Items(): seq<Item<T>>
      reads this
    {
      ItemsOf(nodes)
    }

    constructor ()
      ensures Valid() && Items() == [] && nodes == [] && freed == []
    {
      head, tail, nodes, freed := null, null, [], [];
    }

    method Add(dataObj: Option<T>, dealloc: bool) returns (rv: Status)
      requires Valid()
      modifies this, nodes
      ensures Valid() && fresh(set n | n in nodes && n !in old(nodes)) && freed == old(freed)
      ensures dataObj.None? ==> rv == InvalidParameter && Items() == old(Items())
      ensures dataObj.Some? ==> rv == Success && Items() == [Item(dataObj.value, dealloc)] + old(Items())
    {
      if dataObj.None? {
        return InvalidParameter;
      }
      var elem := new ListElement(Item(dataObj.value, dealloc));
      var tmp := head;
      head := elem;
      head.next := tmp;
      if tmp != null {
        tmp.prev := head;
      } else {
        tail := head;
      }
      nodes := [elem] + nodes;
      assert forall i :: 1 <= i < |nodes| ==> nodes[i] == old(nodes)[i - 1];
      assert ItemsOf(nodes) == [elem.item] + ItemsOf(old(nodes));
      rv := Success;
    }

    method Remove() returns (rv: Status, dataObj: Option<T>)
      requires Valid()
      modifies this, nodes
      ensures Valid() && freed == old(freed) && nodes <= old(nodes)
      ensures old(Items()) == [] ==> rv == UnavailableResource && dataObj == None && Items() == []
      ensures old(Items()) != [] ==>
                var n := |old(Items())| - 1;
                rv == Success && dataObj == Some(old(Items())[n].data) && Items() == old(Items())[..n]
    {
      if tail == null {
        return UnavailableResource, None;
      }
      var tmp := tail;
      tail := tmp.prev;
      if tail != null {
        tail.next := null;
      } else {
        head := tail;
      }
      nodes := nodes[..|nodes| - 1];
      return Success, Some(tmp.item.data);
    }

    method IsEmpty() returns (empty: bool)
      requires Valid()
      ensures empty <==> Items() == []
    {
      empty := head == null;
    }

    method Flush()
      requires Valid()
      modifies this
      ensures Valid() && Items() == [] && nodes == []
      ensures freed == old(freed) + Deallocated(old(Items()))
    {
      ghost var i := 0;
      ghost var items := Items();
      while head != null
        invariant 0 <= i <= |nodes| && nodes == old(nodes)
        invariant head == if i < |nodes| then nodes[i] else null
        invariant freed == old(freed) + Deallocated(items[..i])
        decreases |nodes| - i
      {
        var tmp := head.next;
        if head.item.dealloc {
          freed := freed + [head.item.data];
        }
        DeallocatedAppend(items[..i], items[i]);
        assert items[..i + 1] == items[..i] + [items[i]];
        head := tmp;
        i := i + 1;
      }
      assert items[..i] == items;
      tail := null;
      nodes := [];
    }

    /** Unlinks the element at position `k`, wherever it is. */
    method Unlink(tmp: ListElement<T>, ghost k: nat)
      requires Valid() && k < |nodes| && nodes[k] == tmp
      modifies this, nodes
      ensures Valid() && nodes == old(nodes)[..k] + old(nodes)[k + 1..] && freed == old(freed)
    {
      if tmp.prev == null {
        head := tmp.next;
      } else {
        tmp.prev.next := tmp.next;
      }
      if tmp.next == null {
        tail := tmp.prev;
      } else {
        tmp.next.prev := tmp.prev;
      }
      tmp.prev, tmp.next := null, null;
      nodes := nodes[..k] + nodes[k + 1..];
    }

    /** The removal in linked_list_search: dealloc is called unless the data are handed out. */
    method Delete(tmp: ListElement<T>, mayDealloc: bool, ghost k: nat)
      requires Valid() && k < |nodes| && nodes[k] == tmp
      modifies this, nodes
      ensures Valid() && Items() == old(Items())[..k] + old(Items())[k + 1..]
      ensures freed == old(freed) + if mayDealloc && tmp.item.dealloc then [tmp.item.data] else []
    {
      ghost var items := Items();
      Unlink(tmp, k);
      assert Items() == items[..k] + items[k + 1..];
      if mayDealloc && tmp.item.dealloc {
        freed := freed + [tmp.item.data];
      }
    }

    /** The walk of linked_list_search. */
    method Find(equal: T -> bool) returns (tmp: ListElement?<T>)
      requires Valid()
      ensures var k := FirstMatch(Items(), equal);
              tmp == if k < |nodes| then nodes[k] else null
    {
      tmp := head;
      ghost var items := Items();
      ghost var i := 0;
      while tmp != null && !equal(tmp.item.data)
        invariant 0 <= i <= |nodes| && tmp == (if i < |nodes| then nodes[i] else null)
        invariant FirstMatch(items, equal) == i + FirstMatch(items[i..], equal)
        decreases |nodes| - i
      {
        assert items[i..][1..] == items[i + 1..];
        tmp := tmp.next;
        i := i + 1;
      }
    }

    /** linked_list_search. `wantData` says that data_p is not NULL, `dataIn` is what it points to. */
    method Search(equal: Option<T -> bool>, wantData: bool, dataIn: Option<T>, rmIfFound: bool)
      returns (rv: Status, data: Option<T>)
      requires Valid()
      modifies this, nodes
      ensures Valid()
      ensures equal.None? || old(Items()) == [] ==>
                && rv == (if equal.None? then InvalidHandle else UnavailableResource)
                && data == dataIn && Items() == old(Items()) && freed == old(freed)
      ensures equal.Some? && old(Items()) != [] ==>
                var items, k := old(Items()), FirstMatch(old(Items()), equal.value);
                && rv == Success
                && data == (if !wantData then dataIn else if k < |items| then Some(items[k].data) else None)
                && Items() == (if rmIfFound && k < |items| then items[..k] + items[k + 1..] else items)
                && freed == old(freed) + if rmIfFound && k < |items| && !wantData && items[k].dealloc then [items[k].data] else []
    {
      data := dataIn;
      if equal.None? {
        return InvalidHandle, data;
      }
      if tail == null {
        return UnavailableResource, data;
      }
      if wantData {
        data := None;
      }

      ghost var k := FirstMatch(Items(), equal.value);
      var tmp := Find(equal.value);
      if tmp != null {
        if wantData {
          data := Some(tmp.item.data);
        }
        if rmIfFound {
          Delete(tmp, !wantData, k);
        }
      }
      rv := Success;
    }
  }

  /** The position of the first item, from the head, whose data satisfy `p`; the length if none. */
  function FirstMatch<T>(items: seq<Item<T>>, p: T -> bool): (k: nat)
    ensures k <= |items| && (k < |items| ==> p(items[k].data))
    ensures forall i :: 0 <= i < k ==> !p(items[i].data)
  {
    if items == [] || p(items[0].data) then 0 else 1 + FirstMatch(items[1..], p)
  }
}
