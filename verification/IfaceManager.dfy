/** The interface manager: one instance per interface index, each registered for its events
    in the order of IfaceRegistration. */
module IfaceManagerClass {
  import opened Dispatch
  import opened RegistryClass
  import opened IfaceRegistration

  ghost predicate DistinctIndexes(l: seq<Reg>) { forall i, j | 0 <= i < j < |l| :: l[i].event != l[j].event }

  ghost predicate Unused(l: seq<Reg>, index: nat) { forall i | 0 <= i < |l| :: l[i].event != index }

  /** The index of an interface in the configuration's table, if it is there. */
  datatype Query = Known(index: nat) | InvalidIface

  class IfaceManager {
    const listeners: Registry
    const instances: Registry

    ghost predicate Valid()
      reads this, listeners, instances, listeners.nodes, instances.nodes
    {
      && listeners != instances && listeners.Valid() && instances.Valid()
      && NodeSet(listeners.nodes) !! NodeSet(instances.nodes)
      && DistinctIndexes(Regs(instances.nodes)) && Ordered(Regs(listeners.nodes))
    }

    constructor ()
      ensures Valid() && listeners.nodes == [] && instances.nodes == []
    {
      listeners := new Registry();
      instances := new Registry();
    }

    /** Create the instance `obj` for an interface unless there is one already, its index is
        unknown to the configuration, or nothing is created for its category. */
    method CreateIfaceInstance(query: Query, cat: IfCat, mode: WanMode, oduEnable: bool, oduRouter: bool, obj: nat)
      requires Valid() && forall c :: Allowed(Regs(listeners.nodes), Create(c, obj))
      modifies listeners, instances, NodeSet(listeners.nodes), NodeSet(instances.nodes)
      ensures Valid()
      ensures var kind := KindOf(cat, mode, oduEnable, oduRouter);
              if query.Known? && kind.Created? && old(Unused(Regs(instances.nodes), query.index))
              then Regs(instances.nodes) == old(Regs(instances.nodes)) + [Reg(query.index, obj)]
                   && Regs(listeners.nodes) == Moved(old(Regs(listeners.nodes)), Create(kind.c, obj))
              else instances.nodes == old(instances.nodes) && listeners.nodes == old(listeners.nodes)
    {
      if query.InvalidIface? { return; }
      var found := instances.SearchInstance(query.index);
      if found {
        ghost var i :| 0 <= i < |instances.nodes| && instances.nodes[i].reg.event == query.index;
        assert Regs(instances.nodes)[i].event == query.index;
        return;
      }
      var kind := KindOf(cat, mode, oduEnable, oduRouter);
      if kind.Unhandled? { return; }
      MovedOrdered(Regs(listeners.nodes), Create(kind.c, obj));
      RegisterBlock(kind.c, obj);
      var nw := instances.Registr(query.index, obj);
    }

    method RegisterBlock(c: Category, obj: nat)
      requires listeners != instances && listeners.Valid() && instances.Valid()
      requires NodeSet(listeners.nodes) !! NodeSet(instances.nodes)
      modifies listeners, NodeSet(listeners.nodes)
      ensures listeners.Valid() && instances.Valid() && NodeSet(listeners.nodes) !! NodeSet(instances.nodes)
      ensures Regs(listeners.nodes) == old(Regs(listeners.nodes)) + Block(c, obj)
      ensures fresh(NodeSet(listeners.nodes) - old(NodeSet(listeners.nodes)))
    {
      var events := Order(c);
      for i := 0 to |events|
        invariant listeners.Valid() && instances.Valid() && NodeSet(listeners.nodes) !! NodeSet(instances.nodes)
        invariant Regs(listeners.nodes) == old(Regs(listeners.nodes)) + Block(c, obj)[..i]
        invariant fresh(NodeSet(listeners.nodes) - old(NodeSet(listeners.nodes)))
      {
        assert Block(c, obj)[..i + 1] == Block(c, obj)[..i] + [Block(c, obj)[i]];
        var nw := listeners.Registr(events[i], obj);
        assert NodeSet(listeners.nodes) <= NodeSet(listeners.nodes[..|listeners.nodes| - 1]) + {nw};
      }
    }
  }
}
