/** The dispatch loop over the linked listener list, with callbacks that register and
    deregister listeners while the loop is running. */
module EvtDispatcherClass {
  import opened Dispatch
  import opened RegistryClass

  /** The list as the walk sees it when it is about to continue with node `k`. */
  ghost function Split(nodes: seq<Node>, k: nat): Walk
    requires k <= |nodes|
  {
    Walk(Regs(nodes[..k]), Regs(nodes[k..]))
  }

  lemma {:induction false} KeptConcat(a: seq<Node>, b: seq<Node>, obj: nat)
    ensures Kept(a + b, obj) == Kept(a, obj) + Kept(b, obj)
  {
    if b == [] {
      assert a + b == a;
    } else {
      assert (a + b)[..|a + b| - 1] == a + b[..|b| - 1];
      KeptConcat(a, b[..|b| - 1], obj);
    }
  }

  lemma KeptHead(nodes: seq<Node>, obj: nat)
    requires nodes != [] && nodes[0].reg.obj != obj
    ensures Kept(nodes, obj) != [] && Kept(nodes, obj)[0] == nodes[0]
  {
    assert nodes == [nodes[0]] + nodes[1..];
    KeptConcat([nodes[0]], nodes[1..], obj);
    KeptAll([nodes[0]], obj);
  }

  lemma SplitConcat(a: seq<Node>, b: seq<Node>)
    ensures Split(a + b, |a|) == Walk(Regs(a), Regs(b))
    ensures b != [] ==> (a + b)[|a|] == b[0]
  {
    assert (a + b)[..|a|] == a && (a + b)[|a|..] == b;
  }

  /** Where the saved successor `nodes[k]` ends up when another listener is removed. */
  lemma KeptSplit(nodes: seq<Node>, k: nat, obj: nat) returns (j: nat)
    requires k <= |nodes| && (k < |nodes| ==> nodes[k].reg.obj != obj)
    ensures j <= |Kept(nodes, obj)| && Split(Kept(nodes, obj), j) == Act(Split(nodes, k), Remove(obj))
    ensures k < |nodes| ==> j < |Kept(nodes, obj)| && Kept(nodes, obj)[j] == nodes[k]
    ensures k == |nodes| ==> j == |Kept(nodes, obj)|
  {
    hide Kept, Split, Without;
    var a, b := nodes[..k], nodes[k..];
    assert nodes == a + b;
    KeptConcat(a, b, obj);
    KeptRegs(a, obj);
    KeptRegs(b, obj);
    SplitConcat(a, b);
    SplitConcat(Kept(a, obj), Kept(b, obj));
    j := |Kept(a, obj)|;
    if k < |nodes| {
      KeptHead(b, obj);
    } else {
      assert Kept(b, obj) == [] by { KeptNone(obj); }
    }
  }

  /** Where the saved successor is after an append. */
  lemma AppendSplit(nodes: seq<Node>, k: nat, nw: Node) returns (j: nat)
    requires k <= |nodes|
    ensures j <= |nodes| + 1 && Split(nodes + [nw], j) == Act(Split(nodes, k), Append(nw.reg))
    ensures if k < |nodes| then j < |nodes| + 1 && (nodes + [nw])[j] == nodes[k] else j == |nodes| + 1
  {
    var n := nodes + [nw];
    if k < |nodes| {
      j := k;
      assert n[..j] == nodes[..k] && n[j..] == nodes[k..] + [nw];
      assert Regs(nodes[k..] + [nw]) == Regs(nodes[k..]) + [nw.reg];
    } else {
      j := k + 1;
      assert n[..j] == nodes[..k] + [nw] && n[j..] == [] && nodes[k..] == [];
      assert Regs(nodes[..k] + [nw]) == Regs(nodes[..k]) + [nw.reg];
    }
  }

  lemma KeptNone(obj: nat)
    ensures Kept([], obj) == []
  {
  }

  lemma AppendSet(nodes: seq<Node>, nw: Node)
    ensures NodeSet(nodes + [nw]) <= NodeSet(nodes) + {nw}
  {
  }

  lemma KeptSet(nodes: seq<Node>, obj: nat)
    ensures NodeSet(Kept(nodes, obj)) <= NodeSet(nodes)
  {
    KeptRegs(nodes, obj);
    forall m | m in NodeSet(Kept(nodes, obj)) ensures m in NodeSet(nodes) {
      assert m in nodes;
    }
  }

  class EvtDispatcher {
    const list: Registry

    constructor ()
      ensures list.Valid() && list.nodes == []
    {
      list := new Registry();
    }

    /** One list change made by a callback while the walk holds on to node `k`. */
    method Perform(a: Action, ghost k: nat) returns (ghost j: nat)
      requires list.Valid() && k <= |list.nodes| && Act(Split(list.nodes, k), a).Walk?
      modifies list, NodeSet(list.nodes)
      ensures list.Valid() && j <= |list.nodes| && Split(list.nodes, j) == Act(old(Split(list.nodes, k)), a)
      ensures if k < |old(list.nodes)| then j < |list.nodes| && list.nodes[j] == old(list.nodes)[k] else j == |list.nodes|
      ensures fresh(NodeSet(list.nodes) - old(NodeSet(list.nodes)))
    {
      match a
      case Append(r) =>
        var nw := list.Registr(r.event, r.obj);
        AppendSet(old(list.nodes), nw);
        j := AppendSplit(old(list.nodes), k, nw);
      case Remove(o) =>
        j := KeptSplit(list.nodes, k, o);
        KeptSet(list.nodes, o);
        list.Deregistr(o);
    }

    method PerformAll(acts: seq<Action>, ghost k: nat) returns (ghost j: nat)
      requires list.Valid() && k <= |list.nodes| && ActAll(Split(list.nodes, k), acts).Walk?
      modifies list, NodeSet(list.nodes)
      ensures list.Valid() && j <= |list.nodes| && Split(list.nodes, j) == ActAll(old(Split(list.nodes, k)), acts)
      ensures if k < |old(list.nodes)| then j < |list.nodes| && list.nodes[j] == old(list.nodes)[k] else j == |list.nodes|
      ensures fresh(NodeSet(list.nodes) - old(NodeSet(list.nodes)))
      decreases |acts|
    {
      j := k;
      if acts != [] {
        if Act(Split(list.nodes, k), acts[0]).Freed? {
          FreedStays(acts[1..]);
          assert false;
        }
        j := Perform(acts[0], k);
        j := PerformAll(acts[1..], j);
      }
    }

    /** Deliver `ev`: copy the node, call back, continue with the copied successor. In every
        dispatch that `Process` completes (DispatchSafe and UseAfterFreeIff say which), the copy
        is only ever taken from a node that has not been freed. */
    method ProcessEvt(ev: nat, script: seq<seq<Action>>) returns (calls: seq<Reg>)
      requires list.Valid() && Process(Walk([], Regs(list.nodes)), ev, script).Done?
      modifies list, NodeSet(list.nodes)
      ensures list.Valid()
      ensures Done(Regs(list.nodes), calls) == Process(Walk([], old(Regs(list.nodes))), ev, script)
    {
      hide Process, ActAll, Regs;
      calls := [];
      var tmp := list.head;
      var c := 0;
      ghost var k: nat := 0;
      ghost var goal := Process(Walk([], Regs(list.nodes)), ev, script);
      SplitEnds(list.nodes);
      assert script[0..] == script;
      while tmp != null
        invariant list.Valid() && c <= |script| && k <= |list.nodes|
        invariant tmp == if k < |list.nodes| then list.nodes[k] else null
        invariant fresh(NodeSet(list.nodes) - old(NodeSet(list.nodes)))
        invariant Process(Split(list.nodes, k), ev, script[c..]).Done?
        invariant goal == Prepend(calls, Process(Split(list.nodes, k), ev, script[c..]))
        decreases |script| - c, |list.nodes| - k
      {
        var r := tmp.GetReg();
        var next := tmp.GetNext();
        ghost var w, todo := Split(list.nodes, k), script[c..];
        SplitNext(list.nodes, k);
        ProcessStep(w, ev, todo);
        PrependTwice(calls, if r.event == ev then [r] else [], Process(NextWalk(w, ev, todo), ev, NextScript(w, ev, todo)));
        if r.event == ev && c < |script| {
          assert todo[0] == script[c] && todo[1..] == script[c + 1..];
          k := PerformAll(script[c], k + 1);
          c := c + 1;
        } else {
          k := k + 1;
        }
        calls := calls + if r.event == ev then [r] else [];
        tmp := next;
      }
      assert k == |list.nodes|;
      SplitEnds(list.nodes);
      ProcessEnd(list.nodes, ev, script[c..]);
    }
  }

  lemma SplitNext(nodes: seq<Node>, k: nat)
    requires k < |nodes|
    ensures var w := Split(nodes, k);
      w.rest != [] && w.rest[0] == nodes[k].reg && Split(nodes, k + 1) == Walk(w.done + [w.rest[0]], w.rest[1..])
  {
    assert Regs(nodes[..k + 1]) == Regs(nodes[..k]) + [nodes[k].reg];
    assert Regs(nodes[k + 1..]) == Regs(nodes[k..])[1..];
  }

  lemma SplitEnds(nodes: seq<Node>)
    ensures Split(nodes, 0) == Walk([], Regs(nodes)) && Split(nodes, |nodes|) == Walk(Regs(nodes), [])
  {
    assert nodes[0..] == nodes && nodes[..|nodes|] == nodes;
  }

  lemma ProcessEnd(nodes: seq<Node>, ev: nat, script: seq<seq<Action>>)
    ensures forall calls :: Prepend(calls, Process(Walk(Regs(nodes), []), ev, script)) == Done(Regs(nodes), calls)
  {
    assert forall calls: seq<Reg> :: calls + [] == calls;
  }
}
