/** What the kernel's dependency edges are after every run, told from the operations alone: the
    four ends, the pairs of ends the table holds, and which of them are up. */
module RmHistory {
  import opened RmDepend

  /** The ends that data can flow between. */
  datatype End = Wlan | Usb | Odu | Q6

  function Prod(e: End): Rm {
    match e case Wlan => WlanProd case Usb => UsbProd case Odu => OduProd case Q6 => Q6Prod
  }

  function Cons(e: End): Rm {
    match e case Wlan => WlanCons case Usb => UsbCons case Odu => OduCons case Q6 => Q6Cons
  }

  /** The entry couples `a`, whose producer is watched, with `b`, whose consumer is watched, in
      both directions. */
  ghost predicate Couples(e: Entry, a: End, b: End) { First(e) == (Prod(a), Cons(b)) && Second(e) == (Prod(b), Cons(a)) }

  /** Which producer is watched when two ends are coupled. */
  predicate Watched(a: End, b: End) { (a.Wlan? && b != Wlan) || (a.Odu? && (b.Usb? || b.Q6?)) || (a.Usb? && b.Q6?) }

  /** Any two different ends are coupled by exactly one entry, in exactly one orientation. */
  lemma OneEntryPerPair(a: End, b: End) returns (i: nat)
    requires Watched(a, b)
    ensures i < |TABLE| && Couples(TABLE[i], a, b)
    ensures forall j | 0 <= j < |TABLE| && (Couples(TABLE[j], a, b) || Couples(TABLE[j], b, a)) :: j == i && !Couples(TABLE[j], b, a)
  {
    i := if a.Wlan? then (if b.Q6? then 0 else if b.Usb? then 2 else 4) else if a.Usb? then 1 else if b.Q6? then 3 else 5;
  }

  lemma WatchedOnce(a: End, b: End)
    ensures a != b <==> (Watched(a, b) || Watched(b, a))
    ensures !(Watched(a, b) && Watched(b, a))
  {
  }

  // ------------------------------------------------------------------------ history

  /** The last operation on `rm` was an addition. */
  function Held(ops: seq<Op>, rm: Rm): bool {
    if ops == [] then false
    else
      var last := ops[|ops| - 1];
      if last.rm == rm then last.Add? else Held(ops[..|ops| - 1], rm)
  }

  /** Additions minus deletions. */
  function Outstanding(ops: seq<Op>, rm: Rm): int {
    if ops == [] then 0
    else
      var last := ops[|ops| - 1];
      Outstanding(ops[..|ops| - 1], rm) + if last.rm != rm then 0 else if last.Add? then 1 else -1
  }

  /** The flags of a producer and of a consumer other than Q6's tell the last operation on it. */
  ghost predicate Remembers(t: seq<Entry>, ops: seq<Op>) {
    forall j | 0 <= j < |t| :: t[j].prodUp == Held(ops, t[j].prod1) && (t[j].cons1 != Q6Cons ==> t[j].consUp == Held(ops, t[j].cons1))
  }

  lemma {:induction false} RunLast(s: State, ops: seq<Op>)
    requires ops != []
    ensures Run(s, ops) == Apply(Run(s, ops[..|ops| - 1]), ops[|ops| - 1])
    decreases |ops|
  {
    if |ops| == 1 {
      assert Run(Apply(s, ops[0]), ops[1..]) == Apply(s, ops[0]);
    } else {
      RunLast(Apply(s, ops[0]), ops[1..]);
      assert ops[1..][..|ops| - 2] == ops[..|ops| - 1][1..];
    }
  }

  /** In every run, whatever the ioctls do, the table has its six shapes and remembers the
      operations, and the count is that of the Q6 consumer. */
  lemma {:induction false} RunRemembers(s: State, ops: seq<Op>)
    requires Initial(s)
    ensures var t := Run(s, ops);
      && Inv(t) && |t.tbl| == |TABLE| && (forall j | 0 <= j < |TABLE| :: SameShape(TABLE[j], t.tbl[j]))
      && Remembers(t.tbl, ops) && t.a2 == Outstanding(ops, Q6Cons)
    decreases |ops|
  {
    InitialOk(s);
    if ops != [] {
      var n := |ops| - 1;
      RunRemembers(s, ops[..n]);
      RunLast(s, ops);
      var u := Run(s, ops[..n]);
      ApplyExact(u, ops[n]);
      hide Run, Apply, Inv;
      StepRemembers(u.tbl, Apply(u, ops[n]).tbl, ops, Count(u, ops[n]));
    }
  }

  lemma StepRemembers(t: seq<Entry>, u: seq<Entry>, ops: seq<Op>, a2: int)
    requires ops != [] && |u| == |t| && Remembers(t, ops[..|ops| - 1])
    requires forall j | 0 <= j < |t| :: SlotAfter(t[j], u[j], ops[|ops| - 1], a2)
    ensures Remembers(u, ops)
  {
    forall j | 0 <= j < |u|
      ensures u[j].prodUp == Held(ops, u[j].prod1) && (u[j].cons1 != Q6Cons ==> u[j].consUp == Held(ops, u[j].cons1))
    {
      assert SlotAfter(t[j], u[j], ops[|ops| - 1], a2);
    }
  }

  // ------------------------------------------------------------------------- edges

  /** No addition asks for a bypass. */
  predicate Unbypassed(ops: seq<Op>) { forall i | 0 <= i < |ops| && ops[i].Add? :: !ops[i].bypass }

  lemma {:induction false} NeverBypassed(s: State, ops: seq<Op>)
    requires Inv(s) && Unbypassed(ops) && forall j | 0 <= j < |s.tbl| :: !s.tbl[j].bypass
    ensures Steady(s, ops) && forall j | 0 <= j < |Run(s, ops).tbl| :: !Run(s, ops).tbl[j].bypass
    decreases |ops|
  {
    if ops != [] {
      ApplyExact(s, ops[0]);
      var s1 := s.(a2 := Count(s, ops[0]));
      SlotsUnbypassed(s1, 0, ops[0]);
      NeverBypassed(Apply(s, ops[0]), ops[1..]);
    }
  }

  lemma {:induction false} SlotsUnbypassed(s: State, i: nat, op: Op)
    requires i <= |s.tbl| && (op.Add? ==> !op.bypass) && forall j | 0 <= j < |s.tbl| :: !s.tbl[j].bypass
    ensures forall j | 0 <= j < |s.tbl| :: !SlotsFrom(s, i, op).tbl[j].bypass
    decreases |s.tbl| - i
  {
    if i < |s.tbl| {
      SlotsUnbypassed(SlotOp(s, i, op), i + 1, op);
    }
  }

  /** Dependencies go both ways: after every run with granted ioctls and no bypass, data can flow
      from one end to another in the kernel if and only if it can flow back, and if and only if
      the watched producer and consumer of the pair are up. No other edge is in the kernel. */
  lemma BothWays(s: State, ops: seq<Op>, a: End, b: End)
    requires Initial(s) && Unbypassed(ops) && Granted(s.k, Run(s, ops).k.calls) && Watched(a, b)
    ensures var t := Run(s, ops);
      && ((Prod(a), Cons(b)) in t.k.edges <==> (Prod(b), Cons(a)) in t.k.edges)
      && (!b.Q6? ==> ((Prod(a), Cons(b)) in t.k.edges <==> Held(ops, Prod(a)) && Held(ops, Cons(b))))
  {
    InitialOk(s);
    NeverBypassed(s, ops);
    RunSafe(s, ops);
    RunRemembers(s, ops);
    var i := OneEntryPerPair(a, b);
    var t := Run(s, ops);
    hide Run;
    assert SameShape(TABLE[i], t.tbl[i]) && EdgesOf(t.k.edges, t.tbl[i]) && FlagsOk(t.tbl[i]);
  }

  /** With at most two additions of the Q6 consumer outstanding at a time, a pair with Q6 is
      coupled in the kernel exactly while one is outstanding and the producer is up. */
  lemma Q6Edges(s: State, ops: seq<Op>, a: End)
    requires Initial(s) && Unbypassed(ops) && Granted(s.k, Run(s, ops).k.calls) && !a.Q6? && Balanced(s, ops)
    ensures (Prod(a), Q6Cons) in Run(s, ops).k.edges <==> Held(ops, Prod(a)) && Outstanding(ops, Q6Cons) > 0
  {
    InitialOk(s);
    NeverBypassed(s, ops);
    RunSafe(s, ops);
    RunRemembers(s, ops);
    assert s.tbl[0].cons1 == Q6Cons;
    Q6Run(s, ops);
    var i := OneEntryPerPair(a, Q6);
    var t := Run(s, ops);
    hide Run;
    assert SameShape(TABLE[i], t.tbl[i]) && EdgesOf(t.k.edges, t.tbl[i]) && FlagsOk(t.tbl[i]);
  }

  /** Only edges between two of the four ends are ever in the kernel. */
  lemma OnlyEnds(s: State, ops: seq<Op>, x: Edge) returns (a: End, b: End)
    requires Initial(s) && Unbypassed(ops) && Granted(s.k, Run(s, ops).k.calls) && x in Run(s, ops).k.edges
    ensures a != b && x == (Prod(a), Cons(b))
  {
    InitialOk(s);
    NeverBypassed(s, ops);
    RunSafe(s, ops);
    RunRemembers(s, ops);
    var t := Run(s, ops);
    assert Known(t.tbl, x);
    var i :| 0 <= i < |t.tbl| && (x == First(t.tbl[i]) || x == Second(t.tbl[i]));
    assert SameShape(TABLE[i], t.tbl[i]);
    hide Run, Agrees, Inv, Known;
    a, b := KnownEnds(TABLE[i], x);
  }

  /** Both edges of a fresh entry of the table are between two different ends. */
  lemma KnownEnds(e: Entry, x: Edge) returns (a: End, b: End)
    requires e in TABLE && (x == First(e) || x == Second(e))
    ensures a != b && x == (Prod(a), Cons(b))
  {
    a := if x.0 == WlanProd then Wlan else if x.0 == UsbProd then Usb else if x.0 == OduProd then Odu else Q6;
    b := if x.1 == WlanCons then Wlan else if x.1 == UsbCons then Usb else if x.1 == OduCons then Odu else Q6;
  }
}
