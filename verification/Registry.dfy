/** The singly linked lists of IPACM_EvtDispatcher (key: event) and IPACM_IfaceManager
    (key: interface index), and the dispatch loop over the former. `live` marks the nodes
    that have not been freed. */
module RegistryClass {
  import opened Dispatch

  class Node {
    const reg: Reg
    var next: Node?
    ghost var live: bool

    constructor (reg: Reg)
      ensures this.reg == reg && next == null && live
    {
      this.reg := reg;
      next := null;
      live := true;
    }

    method GetReg() returns (r: Reg)
      requires live
      ensures r == reg
    {
      r := reg;
    }

    method GetNext() returns (n: Node?)
      requires live
      ensures n == next
    {
      n := next;
    }

    method SetNext(n: Node?)
      requires live
      modifies this`next
      ensures next == n
    {
      next := n;
    }

    ghost method Free()
      requires live
      modifies this`live
      ensures !live
    {
      live := false;
    }
  }

  ghost function Regs(nodes: seq<Node>): seq<Reg> { seq(|nodes|, i requires 0 <= i < |nodes| => nodes[i].reg) }

  ghost function Successor(nodes: seq<Node>, i: nat): Node?
    requires i < |nodes|
  {
    if i + 1 < |nodes| then nodes[i + 1] else null
  }

  /** The node filter whose registrations are Without. */
  ghost function Kept(nodes: seq<Node>, obj: nat): seq<Node> {
    if nodes == [] then []
    else Kept(nodes[..|nodes| - 1], obj) + if nodes[|nodes| - 1].reg.obj == obj then [] else [nodes[|nodes| - 1]]
  }

  lemma {:induction false} KeptRegs(nodes: seq<Node>, obj: nat)
    ensures Regs(Kept(nodes, obj)) == Without(Regs(nodes), obj)
    ensures forall m | m in Kept(nodes, obj) :: m in nodes && m.reg.obj != obj
  {
    if nodes != [] {
      KeptRegs(nodes[..|nodes| - 1], obj);
      assert Regs(nodes)[..|nodes| - 1] == Regs(nodes[..|nodes| - 1]);
    }
  }

  ghost function NodeSet(nodes: seq<Node>): set<Node> { set i | 0 <= i < |nodes| :: nodes[i] }

  ghost function Dropped(nodes: seq<Node>, k: nat): (r: seq<Node>)
    requires k < |nodes|
    ensures |r| == |nodes| - 1
    ensures forall i | 0 <= i < |r| :: r[i] == if i < k then nodes[i] else nodes[i + 1]
    ensures NodeSet(r) <= NodeSet(nodes)
  {
    nodes[..k] + nodes[k + 1..]
  }

  ghost predicate AllDistinct(nodes: seq<Node>) { forall i, j | 0 <= i < j < |nodes| :: nodes[i] != nodes[j] }

  lemma DroppedDistinct(nodes: seq<Node>, k: nat)
    requires k < |nodes| && AllDistinct(nodes)
    ensures AllDistinct(Dropped(nodes, k)) && nodes[k] !in Dropped(nodes, k)
  {
  }

  lemma {:induction false} KeptSkips(nodes: seq<Node>, k: nat, obj: nat)
    requires k < |nodes| && nodes[k].reg.obj == obj
    ensures Kept(Dropped(nodes, k), obj) == Kept(nodes, obj)
  {
    var n := |nodes| - 1;
    if k == n {
      assert Dropped(nodes, k) == nodes[..n];
    } else {
      KeptSkips(nodes[..n], k, obj);
      assert Dropped(nodes, k)[..n - 1] == Dropped(nodes[..n], k);
    }
  }

  lemma {:induction false} KeptAll(nodes: seq<Node>, obj: nat)
    requires forall i | 0 <= i < |nodes| :: nodes[i].reg.obj != obj
    ensures Kept(nodes, obj) == nodes
  {
    if nodes != [] {
      KeptAll(nodes[..|nodes| - 1], obj);
      assert nodes == nodes[..|nodes| - 1] + [nodes[|nodes| - 1]];
    }
  }

  class Registry {
    var head: Node?
    ghost var nodes: seq<Node>

    ghost predicate Valid()
      reads this, nodes
    {
      && head == (if nodes == [] then null else nodes[0])
      && (forall i | 0 <= i < |nodes| :: nodes[i].live)
      && (forall i {:trigger nodes[i].next} | 0 <= i < |nodes| :: nodes[i].next == Successor(nodes, i))
      && AllDistinct(nodes)
    }

    constructor ()
      ensures Valid() && nodes == []
    {
      head, nodes := null, [];
    }

    /** Append at the end. */
    method Registr(key: nat, obj: nat) returns (nw: Node)
      requires Valid()
      modifies this, nodes
      ensures Valid() && nodes == old(nodes) + [nw] && nw.reg == Reg(key, obj) && fresh(nw)
      ensures Regs(nodes) == old(Regs(nodes)) + [Reg(key, obj)]
    {
      nw := new Node(Reg(key, obj));
      if head == null {
        head := nw;
      } else {
        var tmp := head;
        var next := tmp.GetNext();
        ghost var k := 0;
        while next != null
          invariant Valid() && nodes == old(nodes) && nw !in nodes && nw.next == null && nw.live
          invariant k < |nodes| && tmp == nodes[k] && next == tmp.next
          decreases |nodes| - k
        {
          tmp := next;
          next := tmp.GetNext();
          k := k + 1;
        }
        tmp.SetNext(nw);
      }
      nodes := nodes + [nw];
    }

    /** Remove and free every node of `obj`. */
    method Deregistr(obj: nat)
      requires Valid()
      modifies this, NodeSet(nodes)
      ensures Valid() && nodes == Kept(old(nodes), obj) && Regs(nodes) == old(Without(Regs(nodes), obj))
    {
      KeptRegs(nodes, obj);
      Purge(obj);
      KeptAll(nodes, obj);
    }

    /** The deregistration loop: nodes before `tmp` stay, and the filter's result does not change. */
    method Purge(obj: nat)
      requires Valid()
      modifies this, NodeSet(nodes)
      ensures Valid() && Kept(nodes, obj) == Kept(old(nodes), obj)
      ensures forall j | 0 <= j < |nodes| :: nodes[j].reg.obj != obj
    {
      var tmp, prev := head, head;
      ghost var k := 0;
      ghost var owned := NodeSet(nodes);
      while tmp != null
        invariant Valid() && k <= |nodes| && tmp == if k < |nodes| then nodes[k] else null
        invariant k > 0 ==> prev == nodes[k - 1]
        invariant prev != null ==> prev in owned
        invariant NodeSet(nodes) <= owned
        invariant forall j | 0 <= j < k :: nodes[j].reg.obj != obj
        invariant Kept(nodes, obj) == Kept(old(nodes), obj)
        decreases |nodes| - k
      {
        assert nodes[k] in NodeSet(nodes);
        var r := tmp.GetReg();
        if r.obj == obj {
          KeptSkips(nodes, k, obj);
          tmp := Unlink(tmp, prev, k);
        } else {
          prev := tmp;
          tmp := tmp.GetNext();
          k := k + 1;
        }
      }
    }

    /** Take node `k` out of the chain, read its successor, and free it. */
    method Unlink(tmp: Node, prev: Node?, ghost k: nat) returns (next: Node?)
      requires Valid() && k < |nodes| && tmp == nodes[k] && (k > 0 ==> prev == nodes[k - 1])
      modifies this, prev, tmp
      ensures Valid() && nodes == Dropped(old(nodes), k) && next == Successor(old(nodes), k) && !tmp.live
    {
      next := tmp.GetNext();
      if tmp == head {
        head := next;
      } else {
        prev.SetNext(next);
      }
      DroppedDistinct(nodes, k);
      nodes := Dropped(nodes, k);
      tmp.Free();
      forall i | 0 <= i < |nodes| ensures nodes[i].live && nodes[i].next == Successor(nodes, i) {
        ghost var m := old(nodes)[if i < k then i else i + 1];
        assert nodes[i] == m && m != tmp;
      }
    }

    /** The duplicate search of the interface manager. */
    method SearchInstance(key: nat) returns (found: bool)
      requires Valid()
      ensures found <==> exists i :: 0 <= i < |nodes| && nodes[i].reg.event == key
    {
      var tmp := head;
      ghost var k := 0;
      while tmp != null
        invariant k <= |nodes| && tmp == if k < |nodes| then nodes[k] else null
        invariant forall i | 0 <= i < k :: nodes[i].reg.event != key
        decreases |nodes| - k
      {
        var r := tmp.GetReg();
        if r.event == key { return true; }
        tmp := tmp.GetNext();
        k := k + 1;
      }
      return false;
    }
  }
}
