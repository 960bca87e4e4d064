/** The resource-manager dependency table and the kernel's set of dependency edges. */
module RmDepend {

  datatype Rm = WlanProd | UsbProd | OduProd | Q6Prod | WlanCons | UsbCons | OduCons | Q6Cons | OtherRm(id: nat)

  datatype Entry = Entry(prod1: Rm, cons1: Rm, prod2: Rm, cons2: Rm, prodUp: bool, consUp: bool, rmSet: bool, bypass: bool)

  type Edge = (Rm, Rm)

  /** The kernel: its edges, and whether each ioctl succeeds. */
  datatype Kernel = Kernel(edges: set<Edge>, calls: nat, fate: nat -> bool)

  datatype State = State(tbl: seq<Entry>, a2: int, k: Kernel)

  function Fresh(p1: Rm, c1: Rm, p2: Rm, c2: Rm): Entry { Entry(p1, c1, p2, c2, false, false, false, false) }

  const TABLE: seq<Entry> := [
    Fresh(WlanProd, Q6Cons, Q6Prod, WlanCons), Fresh(UsbProd, Q6Cons, Q6Prod, UsbCons),
    Fresh(WlanProd, UsbCons, UsbProd, WlanCons), Fresh(OduProd, Q6Cons, Q6Prod, OduCons),
    Fresh(WlanProd, OduCons, OduProd, WlanCons), Fresh(OduProd, UsbCons, UsbProd, OduCons)]

  // ---------------------------------------------------------------- one table slot

  function First(e: Entry): Edge { (e.prod1, e.cons1) }
  function Second(e: Entry): Edge { (e.prod2, e.cons2) }

  function AddEdge(k: Kernel, e: Edge): Kernel {
    k.(edges := if k.fate(k.calls) then k.edges + {e} else k.edges, calls := k.calls + 1)
  }

  function DelEdge(k: Kernel, e: Edge): Kernel {
    k.(edges := if k.fate(k.calls) then k.edges - {e} else k.edges, calls := k.calls + 1)
  }

  function Setup(k: Kernel, e: Entry): Kernel {
    AddEdge(if e.bypass then k else AddEdge(k, First(e)), Second(e))
  }

  function Teardown(k: Kernel, e: Entry): Kernel {
    DelEdge(if e.bypass then k else DelEdge(k, First(e)), Second(e))
  }

  function AddSlot(s: State, i: nat, rm: Rm, bypass: bool): State
    requires i < |s.tbl|
  {
    var s1 := if rm != s.tbl[i].prod1 then s else Raise(s, i, s.tbl[i].(prodUp := true, bypass := bypass));
    if rm != s1.tbl[i].cons1 then s1 else Raise(s1, i, s1.tbl[i].(consUp := true))
  }

  /** Write slot `i`; if both ends are now up and the edges are not set, set them. */
  function Raise(s: State, i: nat, e: Entry): State
    requires i < |s.tbl|
  {
    if e.prodUp && e.consUp && !e.rmSet then s.(tbl := s.tbl[i := e.(rmSet := true)], k := Setup(s.k, e))
    else s.(tbl := s.tbl[i := e])
  }

  /** Remove the edges of slot `i` if they are set. */
  function Lower(s: State, i: nat): State
    requires i < |s.tbl|
  {
    if s.tbl[i].rmSet then s.(tbl := s.tbl[i := s.tbl[i].(rmSet := false)], k := Teardown(s.k, s.tbl[i])) else s
  }

  function DelSlot(s: State, i: nat, rm: Rm): State
    requires i < |s.tbl|
  {
    var s1 := if rm != s.tbl[i].prod1 then s
              else var t := Lower(s, i); t.(tbl := t.tbl[i := t.tbl[i].(prodUp := false, bypass := false)]);
    if rm != s1.tbl[i].cons1 || (rm == Q6Cons && s1.a2 == 1) then s1
    else var t := Lower(s1, i); t.(tbl := t.tbl[i := t.tbl[i].(consUp := false)])
  }

  datatype Op = Add(rm: Rm, bypass: bool) | Del(rm: Rm)

  function SlotOp(s: State, i: nat, op: Op): State
    requires i < |s.tbl|
  {
    match op
    case Add(rm, bypass) => AddSlot(s, i, rm, bypass)
    case Del(rm) => DelSlot(s, i, rm)
  }

  function SlotsFrom(s: State, i: nat, op: Op): (r: State)
    requires i <= |s.tbl|
    ensures |r.tbl| == |s.tbl|
    decreases |s.tbl| - i
  {
    if i == |s.tbl| then s else SlotsFrom(SlotOp(s, i, op), i + 1, op)
  }

  /** The count of outstanding Q6 consumer additions. */
  function Count(s: State, op: Op): int {
    if op.rm != Q6Cons then s.a2 else if op.Add? then s.a2 + 1 else s.a2 - 1
  }

  function Apply(s: State, op: Op): State { SlotsFrom(s.(a2 := Count(s, op)), 0, op) }

  // ---------------------------------------------------------------------- invariants

  /** The edges of all entries are pairwise different. */
  ghost predicate Separate(t: seq<Entry>) {
    && (forall i | 0 <= i < |t| :: First(t[i]) != Second(t[i]) && t[i].prod1 != t[i].cons1)
    && (forall i, j | 0 <= i < |t| && 0 <= j < |t| && i != j ::
          First(t[i]) != First(t[j]) && First(t[i]) != Second(t[j]) && Second(t[i]) != Second(t[j]))
  }

  ghost predicate SameShape(e: Entry, f: Entry) {
    e.prod1 == f.prod1 && e.cons1 == f.cons1 && e.prod2 == f.prod2 && e.cons2 == f.cons2
  }

  /** The edges are set exactly while producer and consumer are both up. */
  ghost predicate FlagsOk(e: Entry) { e.rmSet <==> e.prodUp && e.consUp }

  /** The kernel holds the edges of entry `e` that the table says it holds. */
  ghost predicate EdgesOf(edges: set<Edge>, e: Entry) {
    (First(e) in edges <==> e.rmSet && !e.bypass) && (Second(e) in edges <==> e.rmSet)
  }

  ghost predicate Known(t: seq<Entry>, x: Edge) { exists i :: 0 <= i < |t| && (x == First(t[i]) || x == Second(t[i])) }

  /** The kernel's edges are exactly those of the set entries, minus the bypassed first edges. */
  ghost predicate Agrees(s: State) {
    && (forall i | 0 <= i < |s.tbl| :: EdgesOf(s.k.edges, s.tbl[i]))
    && (forall x | x in s.k.edges :: Known(s.tbl, x))
  }

  ghost predicate Granted(k: Kernel, to: nat) { forall c: nat :: k.calls <= c < to ==> k.fate(c) }

  /** What touching slot `i` may do: only that slot and only its two edges change. */
  ghost predicate OnlySlot(s: State, t: State, i: nat) {
    && i < |s.tbl| == |t.tbl| && t.tbl == s.tbl[i := t.tbl[i]] && SameShape(s.tbl[i], t.tbl[i]) && t.a2 == s.a2
    && t.k.fate == s.k.fate && t.k.calls >= s.k.calls
    && forall x | x != First(s.tbl[i]) && x != Second(s.tbl[i]) :: x in t.k.edges <==> x in s.k.edges
  }

  ghost predicate ProdAfter(e: Entry, op: Op) {
    if op.Add? then e.prodUp || op.rm == e.prod1 else e.prodUp && op.rm != e.prod1
  }

  /** A Q6 consumer stays up when exactly one addition is left. */
  ghost predicate ConsAfter(e: Entry, op: Op, a2: int) {
    if op.Add? then e.consUp || op.rm == e.cons1 else e.consUp && (op.rm != e.cons1 || (op.rm == Q6Cons && a2 == 1))
  }

  /** `op` changes the bypass flag of an entry whose edges are set. */
  ghost predicate Breaks(e: Entry, op: Op) { op.Add? && op.rm == e.prod1 && e.rmSet && e.bypass != op.bypass }

  ghost predicate SlotAfter(e: Entry, f: Entry, op: Op, a2: int) {
    SameShape(e, f) && FlagsOk(f) && f.prodUp == ProdAfter(e, op) && f.consUp == ConsAfter(e, op, a2)
  }

  ghost predicate StepOk(s: State, t: State, i: nat, op: Op) {
    && OnlySlot(s, t, i) && SlotAfter(s.tbl[i], t.tbl[i], op, s.a2)
    && (Granted(s.k, t.k.calls) && EdgesOf(s.k.edges, s.tbl[i]) ==>
          (EdgesOf(t.k.edges, t.tbl[i]) <==> !Breaks(s.tbl[i], op)))
  }

  ghost predicate Proper(e: Entry) { e.prod1 != e.cons1 && First(e) != Second(e) && FlagsOk(e) }

  lemma AddSlotStep(s: State, i: nat, op: Op)
    requires i < |s.tbl| && Proper(s.tbl[i]) && op.Add?
    ensures StepOk(s, AddSlot(s, i, op.rm, op.bypass), i, op)
  {
    var t := AddSlot(s, i, op.rm, op.bypass);
    assert Granted(s.k, t.k.calls) && t.k.calls > s.k.calls ==> s.k.fate(s.k.calls);
    assert Granted(s.k, t.k.calls) && t.k.calls > s.k.calls + 1 ==> s.k.fate(s.k.calls + 1);
  }

  lemma DelSlotStep(s: State, i: nat, op: Op)
    requires i < |s.tbl| && Proper(s.tbl[i]) && op.Del?
    ensures StepOk(s, DelSlot(s, i, op.rm), i, op)
  {
    var t := DelSlot(s, i, op.rm);
    assert Granted(s.k, t.k.calls) && t.k.calls > s.k.calls ==> s.k.fate(s.k.calls);
    assert Granted(s.k, t.k.calls) && t.k.calls > s.k.calls + 1 ==> s.k.fate(s.k.calls + 1);
  }

  lemma SlotStep(s: State, i: nat, op: Op)
    requires i < |s.tbl| && Proper(s.tbl[i])
    ensures StepOk(s, SlotOp(s, i, op), i, op)
  {
    if op.Add? { AddSlotStep(s, i, op); } else { DelSlotStep(s, i, op); }
  }

  /** What the loop over slots `i..` makes of the table and of the kernel. */
  ghost predicate Looped(s: State, t: State, i: nat, op: Op) {
    && |t.tbl| == |s.tbl| && i <= |s.tbl| && t.a2 == s.a2 && t.k.fate == s.k.fate && t.k.calls >= s.k.calls
    && (forall j | 0 <= j < i :: t.tbl[j] == s.tbl[j] && (EdgesOf(t.k.edges, s.tbl[j]) <==> EdgesOf(s.k.edges, s.tbl[j])))
    && (forall j | i <= j < |s.tbl| :: SlotAfter(s.tbl[j], t.tbl[j], op, s.a2))
    && (forall j | i <= j < |s.tbl| :: Granted(s.k, t.k.calls) && EdgesOf(s.k.edges, s.tbl[j]) ==>
          (EdgesOf(t.k.edges, t.tbl[j]) <==> !Breaks(s.tbl[j], op)))
    && (forall x | !Known(s.tbl, x) :: x in t.k.edges <==> x in s.k.edges)
  }

  lemma LoopChain(s: State, u: State, t: State, i: nat, op: Op)
    requires Separate(s.tbl) && StepOk(s, u, i, op) && Looped(u, t, i + 1, op)
    ensures Looped(s, t, i, op)
  {
    forall j | 0 <= j < |s.tbl| && j != i ensures u.tbl[j] == s.tbl[j] && (EdgesOf(u.k.edges, s.tbl[j]) <==> EdgesOf(s.k.edges, s.tbl[j])) {
    }
    forall x | !Known(s.tbl, x) ensures !Known(u.tbl, x) && (x in u.k.edges <==> x in s.k.edges) {
      assert x != First(s.tbl[i]) && x != Second(s.tbl[i]);
      KnownSame(s.tbl, u.tbl, x);
    }
    assert Granted(s.k, t.k.calls) ==> Granted(u.k, t.k.calls) && Granted(s.k, u.k.calls);
  }

  lemma {:induction false} LoopStep(s: State, i: nat, op: Op)
    requires i <= |s.tbl| && Separate(s.tbl) && forall j | 0 <= j < |s.tbl| :: FlagsOk(s.tbl[j])
    ensures Looped(s, SlotsFrom(s, i, op), i, op)
    decreases |s.tbl| - i
  {
    if i < |s.tbl| {
      var u := SlotOp(s, i, op);
      SlotStep(s, i, op);
      assert Separate(u.tbl);
      LoopStep(u, i + 1, op);
      LoopChain(s, u, SlotsFrom(u, i + 1, op), i, op);
    }
  }

  // ------------------------------------------------------------------------ operations

  ghost predicate Inv(s: State) { Separate(s.tbl) && forall j | 0 <= j < |s.tbl| :: FlagsOk(s.tbl[j]) }

  lemma KnownSame(t: seq<Entry>, u: seq<Entry>, x: Edge)
    requires |t| == |u| && forall j | 0 <= j < |t| :: SameShape(t[j], u[j])
    ensures Known(t, x) <==> Known(u, x)
  {
    if Known(t, x) {
      var i :| 0 <= i < |t| && (x == First(t[i]) || x == Second(t[i]));
      assert x == First(u[i]) || x == Second(u[i]);
    }
    if Known(u, x) {
      var i :| 0 <= i < |u| && (x == First(u[i]) || x == Second(u[i]));
      assert x == First(t[i]) || x == Second(t[i]);
    }
  }

  /** One operation: the flags stay right whatever the ioctls do; with every ioctl granted the
      kernel still agrees with the table exactly when no set entry changes its bypass flag. */
  lemma ApplyExact(s: State, op: Op)
    requires Inv(s)
    ensures var t := Apply(s, op);
      && Inv(t) && |t.tbl| == |s.tbl| && t.a2 == Count(s, op) && t.k.fate == s.k.fate && t.k.calls >= s.k.calls
      && (forall j | 0 <= j < |s.tbl| :: SlotAfter(s.tbl[j], t.tbl[j], op, Count(s, op)))
      && (Agrees(s) && Granted(s.k, t.k.calls) ==>
            (Agrees(t) <==> forall j | 0 <= j < |s.tbl| :: !Breaks(s.tbl[j], op)))
  {
    var s1 := s.(a2 := Count(s, op));
    var t := Apply(s, op);
    LoopStep(s1, 0, op);
    forall x ensures Known(t.tbl, x) <==> Known(s.tbl, x) {
      KnownSame(t.tbl, s.tbl, x);
    }
  }

  // ---------------------------------------------------------------------------- runs

  function Run(s: State, ops: seq<Op>): State
    decreases |ops|
  {
    if ops == [] then s else Run(Apply(s, ops[0]), ops[1..])
  }

  /** Bypass never changes for an entry whose edges are set. */
  ghost predicate Steady(s: State, ops: seq<Op>)
    decreases |ops|
  {
    ops == [] || ((forall j | 0 <= j < |s.tbl| :: !Breaks(s.tbl[j], ops[0])) && Steady(Apply(s, ops[0]), ops[1..]))
  }

  lemma {:induction false} RunInv(s: State, ops: seq<Op>)
    requires Inv(s)
    ensures Inv(Run(s, ops)) && Run(s, ops).k.calls >= s.k.calls && Run(s, ops).k.fate == s.k.fate
    decreases |ops|
  {
    if ops != [] {
      ApplyExact(s, ops[0]);
      RunInv(Apply(s, ops[0]), ops[1..]);
    }
  }

  lemma {:induction false} RunAgrees(s: State, ops: seq<Op>)
    requires Inv(s) && Agrees(s) && Steady(s, ops) && Granted(s.k, Run(s, ops).k.calls)
    ensures Agrees(Run(s, ops))
    decreases |ops|
  {
    if ops != [] {
      ApplyExact(s, ops[0]);
      RunInv(Apply(s, ops[0]), ops[1..]);
      RunAgrees(Apply(s, ops[0]), ops[1..]);
    }
  }

  ghost predicate Initial(s: State) { s.tbl == TABLE && s.a2 == 0 && s.k.edges == {} }

  lemma TableSeparate()
    ensures Separate(TABLE)
  {
  }

  lemma InitialOk(s: State)
    requires Initial(s)
    ensures Inv(s) && Agrees(s)
  {
    TableSeparate();
  }

  /** Every sequence of additions and deletions from the six-entry table: edges are set exactly
      while both ends are up, and, with ioctls granted and bypass steady, the kernel's edges are
      exactly those of the set entries. */
  lemma RunSafe(s: State, ops: seq<Op>)
    requires Initial(s)
    ensures forall j | 0 <= j < |Run(s, ops).tbl| :: FlagsOk(Run(s, ops).tbl[j])
    ensures Steady(s, ops) && Granted(s.k, Run(s, ops).k.calls) ==> Agrees(Run(s, ops))
  {
    InitialOk(s);
    RunInv(s, ops);
    if Steady(s, ops) && Granted(s.k, Run(s, ops).k.calls) {
      RunAgrees(s, ops);
    }
  }

  // ---------------------------------------------------------------- the Q6 consumer

  /** The Q6 consumer is up exactly while additions are outstanding. */
  ghost predicate Q6Ok(s: State) {
    forall j | 0 <= j < |s.tbl| && s.tbl[j].cons1 == Q6Cons :: s.tbl[j].consUp <==> s.a2 > 0
  }

  /** Exactly when an operation keeps the Q6 consumer in step with the count. */
  lemma Q6Exact(s: State, op: Op)
    requires Inv(s) && Q6Ok(s) && exists j :: 0 <= j < |s.tbl| && s.tbl[j].cons1 == Q6Cons
    ensures Q6Ok(Apply(s, op)) <==> (op.rm == Q6Cons ==> if op.Add? then s.a2 >= 0 else s.a2 <= 2)
  {
    ApplyExact(s, op);
    var t := Apply(s, op);
    var j :| 0 <= j < |s.tbl| && s.tbl[j].cons1 == Q6Cons;
    assert SlotAfter(s.tbl[j], t.tbl[j], op, t.a2);
    assert forall i | 0 <= i < |s.tbl| :: SlotAfter(s.tbl[i], t.tbl[i], op, t.a2);
  }

  /** At most two additions of the Q6 consumer are ever outstanding, and none is taken back
      before it was made. */
  ghost predicate Balanced(s: State, ops: seq<Op>)
    decreases |ops|
  {
    ops == [] || (0 <= Count(s, ops[0]) <= 2 && Balanced(Apply(s, ops[0]), ops[1..]))
  }

  lemma {:induction false} Q6Run(s: State, ops: seq<Op>)
    requires Inv(s) && Q6Ok(s) && 0 <= s.a2 <= 2 && Balanced(s, ops)
    requires exists j :: 0 <= j < |s.tbl| && s.tbl[j].cons1 == Q6Cons
    ensures Q6Ok(Run(s, ops)) && 0 <= Run(s, ops).a2 <= 2
    decreases |ops|
  {
    if ops != [] {
      ApplyExact(s, ops[0]);
      Q6Exact(s, ops[0]);
      var t := Apply(s, ops[0]);
      var j :| 0 <= j < |s.tbl| && s.tbl[j].cons1 == Q6Cons;
      assert SlotAfter(s.tbl[j], t.tbl[j], ops[0], t.a2);
      Q6Run(t, ops[1..]);
    }
  }

  /** Three additions and one deletion take the consumer down with two additions outstanding. */
  lemma Q6ThreeAdds(s: State)
    requires Initial(s)
    ensures var t := Run(s, [Add(Q6Cons, false), Add(Q6Cons, false), Add(Q6Cons, false), Del(Q6Cons)]);
      t.a2 == 2 && !Q6Ok(t)
  {
    InitialOk(s);
    assert s.tbl[0].cons1 == Q6Cons;
    var a := Add(Q6Cons, false);
    var s1, s2, s3 := Apply(s, a), Apply(Apply(s, a), a), Apply(Apply(Apply(s, a), a), a);
    StepTwo(s, a);
    StepTwo(s1, a);
    StepTwo(s2, a);
    StepTwo(s3, Del(Q6Cons));
    RunFour(s, a, a, a, Del(Q6Cons));
  }

  lemma StepTwo(s: State, op: Op)
    requires Inv(s) && Q6Ok(s) && |s.tbl| > 0 && s.tbl[0].cons1 == Q6Cons && op.rm == Q6Cons
    ensures var t := Apply(s, op);
      Inv(t) && |t.tbl| > 0 && t.tbl[0].cons1 == Q6Cons && t.a2 == Count(s, op)
      && (Q6Ok(t) <==> if op.Add? then s.a2 >= 0 else s.a2 <= 2)
  {
    ApplyExact(s, op);
    assert SlotAfter(s.tbl[0], Apply(s, op).tbl[0], op, Count(s, op));
    Q6Exact(s, op);
  }

  lemma RunFour(s: State, a: Op, b: Op, c: Op, d: Op)
    ensures Run(s, [a, b, c, d]) == Apply(Apply(Apply(Apply(s, a), b), c), d)
  {
    assert [a, b, c, d][1..] == [b, c, d] && [b, c, d][1..] == [c, d] && [c, d][1..] == [d];
    assert Run(s, [a, b, c, d]) == Run(Apply(s, a), [b, c, d]);
    assert Run(Apply(s, a), [b, c, d]) == Run(Apply(Apply(s, a), b), [c, d]);
    assert Run(Apply(Apply(s, a), b), [c, d]) == Run(Apply(Apply(Apply(s, a), b), c), [d]);
    assert Run(Apply(Apply(Apply(s, a), b), c), [d]) == Run(Apply(Apply(Apply(Apply(s, a), b), c), d), []);
  }
}
