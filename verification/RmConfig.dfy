/** The dependency table as IPACM_Config keeps it: flags changed in place, one ioctl at a time. */
module RmConfigClass {
  import opened RmDepend

  class RmConfig {
    const tbl: array<Entry>
    const fate: nat -> bool
    var a2Check: int
    var edges: set<Edge>
    var calls: nat

    ghost function Value(): State
      reads this, tbl
    {
      State(tbl[..], a2Check, Kernel(edges, calls, fate))
    }

    constructor (fate: nat -> bool)
      ensures Initial(Value()) && Value().k.fate == fate && fresh(tbl)
    {
      this.fate := fate;
      tbl := new Entry[|TABLE|](i requires 0 <= i < |TABLE| => TABLE[i]);
      a2Check, edges, calls := 0, {}, 0;
      new;
      assert tbl[..] == TABLE;
    }

    method AddDependency(e: Edge)
      modifies this`edges, this`calls
      ensures Value().k == AddEdge(old(Value().k), e)
    {
      if fate(calls) { edges := edges + {e}; }
      calls := calls + 1;
    }

    method DelDependency(e: Edge)
      modifies this`edges, this`calls
      ensures Value().k == DelEdge(old(Value().k), e)
    {
      if fate(calls) { edges := edges - {e}; }
      calls := calls + 1;
    }

    /** The two branches of the addition loop share this: write the flags, then set up the
        edges if both ends are up. */
    method WriteAndSetUp(i: nat, e: Entry)
      requires i < tbl.Length
      modifies this`edges, this`calls, tbl
      ensures Value() == Raise(old(Value()), i, e)
    {
      tbl[i] := e;
      if e.prodUp && e.consUp && !e.rmSet {
        if !e.bypass { AddDependency((e.prod1, e.cons1)); }
        AddDependency((e.prod2, e.cons2));
        tbl[i] := e.(rmSet := true);
      }
    }

    method TearDown(i: nat)
      requires i < tbl.Length
      modifies this`edges, this`calls, tbl
      ensures Value() == Lower(old(Value()), i)
    {
      if tbl[i].rmSet {
        var bypass, p1, c1, p2, c2 := tbl[i].bypass, tbl[i].prod1, tbl[i].cons1, tbl[i].prod2, tbl[i].cons2;
        tbl[i] := tbl[i].(rmSet := false);
        if !bypass { DelDependency((p1, c1)); }
        DelDependency((p2, c2));
      }
    }

    method AddRmDepend(rm: Rm, bypass: bool)
      modifies this, tbl
      ensures Value() == Apply(old(Value()), Add(rm, bypass))
    {
      if rm == Q6Cons { a2Check := a2Check + 1; }
      ghost var s := Value();
      for i := 0 to tbl.Length
        invariant SlotsFrom(Value(), i, Add(rm, bypass)) == SlotsFrom(s, 0, Add(rm, bypass))
      {
        AddAt(i, rm, bypass);
      }
    }

    /** The body of the addition loop. */
    method AddAt(i: nat, rm: Rm, bypass: bool)
      requires i < tbl.Length
      modifies this`edges, this`calls, tbl
      ensures Value() == AddSlot(old(Value()), i, rm, bypass)
    {
      if rm == tbl[i].prod1 {
        WriteAndSetUp(i, tbl[i].(prodUp := true, bypass := bypass));
      }
      if rm == tbl[i].cons1 {
        WriteAndSetUp(i, tbl[i].(consUp := true));
      }
    }

    method DelRmDepend(rm: Rm)
      modifies this, tbl
      ensures Value() == Apply(old(Value()), Del(rm))
    {
      if rm == Q6Cons { a2Check := a2Check - 1; }
      ghost var s := Value();
      for i := 0 to tbl.Length
        invariant SlotsFrom(Value(), i, Del(rm)) == SlotsFrom(s, 0, Del(rm))
      {
        if rm == tbl[i].prod1 {
          TearDown(i);
          tbl[i] := tbl[i].(prodUp := false, bypass := false);
        }
        if rm == tbl[i].cons1 {
          if tbl[i].cons1 == Q6Cons && a2Check == 1 { continue; }
          TearDown(i);
          tbl[i] := tbl[i].(consUp := false);
        }
      }
    }
  }
}
