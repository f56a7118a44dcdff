/**
  The event registry and the command queue of data-ipa-cfg-mgr/ipacm: singly linked lists whose
  `prev` and `Tail` pointers are left pointing at freed nodes, and why that does no harm.
 */
module EvtDispatcher {
  type EventId = nat
  type Listener = nat

  datatype Registration = Registration(event: EventId, obj: Listener)

  /** A cmd_evts node. */
  class CmdEvts {
    const reg: Registration
    var next: CmdEvts?

    constructor (reg: Registration)
      ensures this.reg == reg && next == null
    {
      this.reg, next := reg, null;
    }
  }

  /** The registrations of everybody but `obj`, in order. */
  function Without(regs: seq<Registration>, obj: Listener): seq<Registration> {
    if regs == [] then []
    else (if regs[0].obj == obj then [] else [regs[0]]) + Without(regs[1..], obj)
  }

  /** The listeners that an event is delivered to, in the order of registration. */
  function Matching(regs: seq<Registration>, event: EventId): seq<Listener> {
    if regs == [] then []
    else (if regs[0].event == event then [regs[0].obj] else []) + Matching(regs[1..], event)
  }

  lemma {:induction false} MatchingAppend(regs: seq<Registration>, r: Registration, event: EventId)
    ensures Matching(regs + [r], event) == Matching(regs, event) + (if r.event == event then [r.obj] else [])
  {
    if regs == [] {
      assert [] + [r] == [r];
    } else {
      MatchingAppend(regs[1..], r, event);
      assert (regs + [r])[1..] == regs[1..] + [r];
    }
  }

  /** Without keeps exactly the registrations of other listeners, with their multiplicity. */
  lemma {:induction false} WithoutIsExact(regs: seq<Registration>, obj: Listener, r: Registration)
    ensures multiset(Without(regs, obj))[r] == if r.obj == obj then 0 else multiset(regs)[r]
  {
    if regs != [] {
      WithoutIsExact(regs[1..], obj, r);
      assert regs == [regs[0]] + regs[1..];
    }
  }

  /** A listener is delivered an event as often as it registered for it. */
  lemma {:induction false} MatchingIsExact(regs: seq<Registration>, event: EventId, obj: Listener)
    ensures multiset(Matching(regs, event))[obj] == multiset(regs)[Registration(event, obj)]
  {
    if regs != [] {
      MatchingIsExact(regs[1..], event, obj);
      assert regs == [regs[0]] + regs[1..];
    }
  }

  /** The sequence without its element at position `p`. */
  function CutAt<T>(s: seq<T>, p: nat): (r: seq<T>)
    requires p < |s|
    ensures |r| == |s| - 1
    ensures forall i :: 0 <= i < |r| ==> r[i] == if i < p then s[i] else s[i + 1]
  {
    s[..p] + s[p + 1..]
  }

  /** What deregistr makes of the registry when it has looked at the first `p` places. */
  function Swept(regs: seq<Registration>, p: nat, obj: Listener): seq<Registration>
    requires p <= |regs|
  {
    regs[..p] + Without(regs[p..], obj)
  }

  lemma SweptEnds(regs: seq<Registration>, obj: Listener)
    ensures Swept(regs, 0, obj) == Without(regs, obj)
    ensures Swept(regs, |regs|, obj) == regs
  {
    assert regs[0..] == regs && regs[|regs|..] == [];
  }

  /** One turn of deregistr at position `p`. */
  lemma SweptStep(regs: seq<Registration>, p: nat, obj: Listener)
    requires p < |regs|
    ensures if regs[p].obj == obj then Swept(CutAt(regs, p), p, obj) == Swept(regs, p, obj)
            else Swept(regs, p + 1, obj) == Swept(regs, p, obj)
  {
    assert regs[p..][1..] == regs[p + 1..];
    if regs[p].obj == obj {
      var left := CutAt(regs, p);
      assert left[..p] == regs[..p] && left[p..] == regs[p + 1..];
    } else {
      assert regs[..p + 1] == regs[..p] + [regs[p]];
    }
  }

  /** A call of event_callback. */
  datatype Delivery = Delivery(obj: Listener, event: EventId, data: nat)

  ghost function RegsOf(nodes: seq<CmdEvts>): (regs: seq<Registration>)
    ensures |regs| == |nodes| && forall i :: 0 <= i < |nodes| ==> regs[i] == nodes[i].reg
  {
    seq(|nodes|, i requires 0 <= i < |nodes| => nodes[i].reg)
  }

  lemma RegsWithout(nodes: seq<CmdEvts>, p: nat)
    requires p < |nodes|
    ensures RegsOf(CutAt(nodes, p)) == CutAt(RegsOf(nodes), p)
  {
  }

  lemma CutMembers(nodes: seq<CmdEvts>, p: nat)
    requires p < |nodes|
    requires forall i, j :: 0 <= i < j < |nodes| ==> nodes[i] != nodes[j]
    ensures forall i, j :: 0 <= i < j < |nodes| - 1 ==> CutAt(nodes, p)[i] != CutAt(nodes, p)[j]
    ensures forall n :: n in CutAt(nodes, p) <==> n in nodes && n != nodes[p]
  {
    forall n | n in nodes && n != nodes[p] ensures n in CutAt(nodes, p) {
      var i :| 0 <= i < |nodes| && nodes[i] == n;
      assert CutAt(nodes, p)[if i < p then i else i - 1] == n;
    }
  }

  class Dispatcher {
    var head: CmdEvts?
    var delivered: seq<Delivery>
    ghost var nodes: seq<CmdEvts>
    ghost var freed: set<CmdEvts>  // nodes given to free()
    ghost var touchedFreed: bool   // set by any read or write of such a node

    ghost predicate Valid()
      reads this, nodes
    {
      && (forall i, j :: 0 <= i < j < |nodes| ==> nodes[i] != nodes[j])
      && head == (if nodes == [] then null else nodes[0])
      && (forall i {:trigger nodes[i].next} :: 0 <= i < |nodes| ==> nodes[i].next == if i + 1 < |nodes| then nodes[i + 1] else null)
      && (forall i :: 0 <= i < |nodes| ==> nodes[i] !in freed)
      && !touchedFreed
    }

    ghost function Registry(): seq<Registration>
      reads this
    {
      RegsOf(nodes)
    }

    constructor ()
      ensures Valid() && Registry() == [] && delivered == [] && nodes == [] && freed == {}
    {
      head, delivered, nodes, freed, touchedFreed := null, [], [], {}, false;
    }

    method Registr(event: EventId, obj: Listener)
      requires Valid() && (forall n :: n in freed ==> allocated(n))
      modifies this, nodes
      ensures Valid() && !touchedFreed && Registry() == old(Registry()) + [Registration(event, obj)]
      ensures delivered == old(delivered) && freed == old(freed)
    {
      var tmp := head;
      var nw := new CmdEvts(Registration(event, obj));
      if head == null {
        head := nw;
      } else {
        ghost var i := 0;
        while tmp.next != null
          invariant 0 <= i < |nodes| && tmp == nodes[i] && Valid() && nodes == old(nodes) && nw !in nodes && nw !in freed
          invariant nw.next == null && delivered == old(delivered) && freed == old(freed)
          decreases |nodes| - i
        {
          touchedFreed := touchedFreed || tmp in freed;
          tmp := tmp.next;
          i := i + 1;
        }
        touchedFreed := touchedFreed || tmp in freed;
        tmp.next := nw;
      }
      nodes := nodes + [nw];
    }

    /** The turn of deregistr that takes out the node at position `p`: relink around it, step on to
        its successor and only then free it. `prev` may point to a freed node when `tmp` is the
        head; it is written through only when it is not. */
    method Unlink(tmp: CmdEvts, prev: CmdEvts, ghost p: nat) returns (next: CmdEvts?)
      requires Valid() && p < |nodes| && nodes[p] == tmp
      requires p > 0 ==> prev == nodes[p - 1]
      modifies this, nodes
      ensures Valid() && nodes == CutAt(old(nodes), p)
      ensures freed == old(freed) + {tmp} && delivered == old(delivered)
      ensures next == (if p < |nodes| then nodes[p] else null)
      ensures Registry() == CutAt(old(Registry()), p)
      ensures forall n :: n in nodes <==> n in old(nodes) && n != tmp
    {
      hide RegsOf;
      touchedFreed := touchedFreed || tmp in freed;
      if tmp == head {
        head := head.next;
      } else if tmp.next == null {
        touchedFreed := touchedFreed || prev in freed;
        prev.next := null;
      } else {
        touchedFreed := touchedFreed || prev in freed;
        prev.next := tmp.next;
      }
      touchedFreed := touchedFreed || tmp in freed;
      next := tmp.next;
      nodes := CutAt(nodes, p);
      freed := freed + {tmp};
      CutMembers(old(nodes), p);
      RegsWithout(old(nodes), p);
    }

    /** deregistr removes every registration of `param` and no other, frees exactly the nodes of
        these, and never touches a freed node. */
    method Deregistr(param: Listener)
      requires Valid()
      modifies this, nodes
      ensures Valid() && Registry() == Without(old(Registry()), param)
      ensures !touchedFreed
      ensures forall n :: n in freed <==> n in old(freed) || (n in old(nodes) && n !in nodes)
      ensures delivered == old(delivered)
    {
      hide Without, Swept, RegsOf, CutAt;
      var tmp, prev := head, head;
      ghost var p := 0;  // the position of tmp
      SweptEnds(Registry(), param);
      while tmp != null
        invariant 0 <= p <= |nodes| && tmp == (if p < |nodes| then nodes[p] else null)
        invariant Valid() && delivered == old(delivered)
        invariant forall n :: n in nodes ==> n in old(nodes)
        invariant forall n :: n in freed <==> n in old(freed) || (n in old(nodes) && n !in nodes)
        invariant p > 0 ==> prev == nodes[p - 1]
        invariant prev != null || nodes == []
        invariant Swept(Registry(), p, param) == Without(old(Registry()), param)
        decreases |nodes| - p
      {
        SweptStep(Registry(), p, param);
        touchedFreed := touchedFreed || tmp in freed;
        if tmp.reg.obj == param {
          tmp := Unlink(tmp, prev, p);
        } else {
          prev := tmp;
          touchedFreed := touchedFreed || tmp in freed;
          tmp := tmp.next;
          p := p + 1;
        }
      }
      SweptEnds(Registry(), param);
    }

    /** ProcessEvt: one call-back for each matching registration. */
    method ProcessEvt(event: EventId, data: nat)
      requires Valid()
      modifies this`delivered, this`touchedFreed
      ensures Valid() && !touchedFreed
      ensures delivered == old(delivered) + Deliveries(Matching(Registry(), event), event, data)
    {
      var tmp := head;
      ghost var i := 0;
      ghost var regs := Registry();
      while tmp != null
        invariant 0 <= i <= |nodes| && tmp == if i < |nodes| then nodes[i] else null
        invariant !touchedFreed
        invariant delivered == old(delivered) + Deliveries(Matching(regs[..i], event), event, data)
        decreases |nodes| - i
      {
        MatchingAppend(regs[..i], tmp.reg, event);
        assert regs[..i + 1] == regs[..i] + [tmp.reg];
        touchedFreed := touchedFreed || tmp in freed;
        var before := tmp;
        if event == before.reg.event {
          delivered := delivered + [Delivery(before.reg.obj, event, data)];
        }
        tmp := before.next;
        i := i + 1;
      }
      assert regs[..i] == regs;
    }
  }

  function Deliveries(objs: seq<Listener>, event: EventId, data: nat): (ds: seq<Delivery>)
    ensures |ds| == |objs| && forall i :: 0 <= i < |objs| ==> ds[i] == Delivery(objs[i], event, data)
  {
    seq(|objs|, i requires 0 <= i < |objs| => Delivery(objs[i], event, data))
  }
}
