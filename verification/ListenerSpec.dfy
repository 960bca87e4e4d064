/** The conntrack listener on values: each event updates the address lists and
    turns into a list of NatApp operations. */
module ListenerSpec {
  import opened NatTypes
  import opened NatHardware
  import opened NatSpec

  const MAX_IFACE_ADDRESS := 50
  const MAX_STA_CLNT_IFACES := 10
  const TCP := 6
  const UDP := 17

  datatype Listener = Listener(app: State, natIfs: seq<nat>, nonNatIfs: seq<nat>, staClnts: seq<nat>, staCnt: int,
                               wanUp: bool, isSta: bool, wanIp: nat)

  datatype MsgType = New | Update | Destroy
  datatype TcpState = Established | FinWait | OtherState

  /** The conntrack attributes the listener reads, and the configuration it consults. */
  datatype CtMsg = CtMsg(origProto: nat, replProto: nat, dstNat: bool, srcNat: bool, kind: MsgType, tcp: TcpState,
                         origSrc: nat, origSport: nat, origDst: nat, origDport: nat,
                         replSrc: nat, replSport: nat, replDport: nat,
                         passthrough: bool, gatewayIp: nat, isPrivate: nat -> bool)

  /** Outcome of looking the interface up: not resolved, NATed, or not NATed. */
  datatype Iface = Unresolved | Natted | Plain

  datatype Event =
    | NeighAdd(ip: nat, iface: Iface)
    | NeighDel(ip: nat)
    | NonNatAdd(ip: nat, iface: Iface)
    | NonNatDel(ip: nat)
    | StaAdd(ip: nat)
    | StaDel(ip: nat)
    | WanUp(ip: nat, sta: bool)
    | WanDown(ip: nat)
    | Conntrack(m: CtMsg)
    | PowerSave(ip: nat)
    | PowerReset(ip: nat)
    | Timestamp(i: nat, q: Stamp, ctOk: bool)

  // ------------------------------------------------------------- address lists

  /** First slot at or after `i` that holds `x` or is free, or the length. */
  function FirstOfOrFree(a: seq<nat>, x: nat, i: nat): (r: nat)
    requires i <= |a|
    ensures i <= r <= |a|
    ensures r < |a| ==> a[r] == x || a[r] == 0
    ensures forall j | i <= j < r :: a[j] != x && a[j] != 0
    decreases |a| - i
  {
    if i == |a| || a[i] == x || a[i] == 0 then i else FirstOfOrFree(a, x, i + 1)
  }

  function Zeroed(a: seq<nat>, x: nat): seq<nat> { seq(|a|, i requires 0 <= i < |a| => if a[i] == x then 0 else a[i]) }

  function Copies(a: seq<nat>, x: nat, i: nat): nat
    requires i <= |a|
    decreases |a| - i
  {
    if i == |a| then 0 else (if a[i] == x then 1 else 0) + Copies(a, x, i + 1)
  }

  function Prefix(a: seq<nat>, n: int): seq<nat> { if n <= 0 then [] else if n >= |a| then a else a[..n] }

  // -------------------------------------------------------- conntrack messages

  datatype Verdict = Ignore | Use(rule: Entry, isTemp: bool)

  datatype Direction = DstNat | SrcNat | NoNat

  function DirectionOf(l: Listener, m: CtMsg): Direction {
    if m.dstNat then DstNat
    else if m.srcNat then SrcNat
    else if m.origSrc == 0 || m.origDst == 0 then NoNat
    else if m.origSrc == l.wanIp then SrcNat
    else if m.origDst == l.wanIp then DstNat
    else NoNat
  }

  function Populate(wanIp: nat, m: CtMsg, d: Direction): Entry {
    var k := if d.DstNat? then Key(m.replSrc, m.replSport, m.origSrc, m.origSport, m.replProto)
             else Key(m.origSrc, m.origSport, m.origDst, m.origDport, m.replProto);
    Entry(k, wanIp, if d.DstNat? then m.origDport else m.replDport, 0, d.DstNat?, false, 0)
  }

  predicate OnList(a: seq<nat>, e: Entry) {
    exists i :: 0 <= i < |a| && a[i] != 0 && (e.key.privateIp == a[i] || e.key.targetIp == a[i])
  }

  function AddIface(l: Listener, m: CtMsg, e: Entry): Verdict {
    if m.passthrough && e.key.privateIp == m.gatewayIp then Use(e, false)
    else if OnList(l.natIfs, e) then Use(e, false)
    else if !l.isSta && OnList(l.nonNatIfs, e) then Use(Dummied(e, true), false)
    else if m.isPrivate(e.key.privateIp) || m.isPrivate(e.key.targetIp) then Use(e, true)
    else Ignore
  }

  /** In STA mode a target in the client subnet that is not a known client is kept waiting. */
  predicate UnknownStaClient(l: Listener, e: Entry) {
    && l.isSta && l.staCnt != 0 && |l.staClnts| > 0
    && l.staClnts[0] / 256 == e.key.targetIp / 256
    && e.key.targetIp !in Prefix(l.staClnts, l.staCnt)
  }

  function Judge(l: Listener, m: CtMsg): Verdict {
    if m.origProto != UDP && m.origProto != TCP then Ignore
    else
      var d := DirectionOf(l, m);
      if d.NoNat? then Ignore
      else
        var e := Populate(l.wanIp, m, d);
        var v := if e.key.privateIp != l.wanIp then AddIface(l, m, e)
                 else if l.isSta then Ignore
                 else Use(e.(key := e.key.(privatePort := e.publicPort)), false);
        match v
        case Ignore => Ignore
        case Use(r, t) => Use(r, t || UnknownStaClient(l, r))
  }

  predicate Opens(m: CtMsg, proto: nat) {
    (proto == TCP && m.tcp.Established?) || (proto == UDP && m.kind.New?)
  }

  predicate Closes(m: CtMsg, proto: nat) {
    (proto == TCP && !m.tcp.Established? && (m.tcp.FinWait? || m.kind.Destroy?)) || (proto == UDP && m.kind.Destroy?)
  }

  function CtOps(l: Listener, m: CtMsg): seq<Op> {
    match Judge(l, m)
    case Ignore => []
    case Use(e, isTemp) =>
      if Opens(m, e.key.protocol) then
        if !l.wanUp then [OpCacheEntry(e)] else if isTemp then [OpAddTemp(e)] else [OpAddEntry(e)]
      else if Closes(m, e.key.protocol) then [OpDeleteEntry(e.key), OpDeleteTemp(e.key)]
      else []
  }

  // --------------------------------------------------------------------- events

  function DelRounds(ip: nat, n: nat): seq<Op> {
    if n == 0 then [] else [OpFlush(ip, false, false), OpClntDiscon(ip)] + DelRounds(ip, n - 1)
  }

  lemma RunRound(s: State, ip: nat, n: nat)
    requires n > 0
    ensures Run(s, DelRounds(ip, n)) == Run(Run(s, [OpFlush(ip, false, false), OpClntDiscon(ip)]), DelRounds(ip, n - 1))
  {
    var rest := DelRounds(ip, n - 1);
    var s1 := Apply(s, OpFlush(ip, false, false));
    RunTwo(s, OpFlush(ip, false, false), OpClntDiscon(ip));
    assert DelRounds(ip, n)[1..] == [OpClntDiscon(ip)] + rest;
    assert ([OpClntDiscon(ip)] + rest)[1..] == rest;
    assert Run(s1, [OpClntDiscon(ip)] + rest) == Run(Apply(s1, OpClntDiscon(ip)), rest);
  }

  function Ops(l: Listener, ev: Event): seq<Op> {
    match ev
    case NeighAdd(ip, f) =>
      if f.Natted? && ip != 0 && FirstOfOrFree(l.natIfs, ip, 0) < |l.natIfs|
      then [OpResetPwrSave(ip), OpFlush(ip, true, false)] else []
    case NeighDel(ip) => if ip == 0 then [] else DelRounds(ip, Copies(l.natIfs, ip, 0))
    case NonNatAdd(ip, f) =>
      if !l.isSta && f.Plain? && ip != 0 && FirstOf(l.nonNatIfs, 0, 0) < |l.nonNatIfs| then [OpFlush(ip, true, true)] else []
    case NonNatDel(ip) =>
      if !l.isSta && FirstOf(l.nonNatIfs, ip, 0) < |l.nonNatIfs| then [OpFlush(ip, false, false), OpClntDiscon(ip)] else []
    case StaAdd(ip) => if l.staCnt >= MAX_STA_CLNT_IFACES then [] else [OpFlush(ip, true, false)]
    case StaDel(ip) =>
      if ip != 0 && FirstOf(l.staClnts, ip, 0) < |l.staClnts| then [OpStaDiscon(ip), OpFlush(ip, false, false)]
      else [OpFlush(ip, false, false)]
    case WanUp(ip, _) => if l.wanUp || ip == 0 then [] else [OpAddTable(ip)]
    case WanDown(ip) => if l.wanUp then [OpDeleteTable(ip)] else []
    case Conntrack(m) => CtOps(l, m)
    case PowerSave(ip) => [OpUpdatePwrSave(ip)]
    case PowerReset(ip) => [OpResetPwrSave(ip)]
    case Timestamp(i, q, ctOk) => [OpStamp(i, q, ctOk)]
  }

  function Lists(l: Listener, ev: Event): Listener {
    match ev
    case NeighAdd(ip, f) =>
      var j := FirstOfOrFree(l.natIfs, ip, 0);
      if f.Natted? && ip != 0 && j < |l.natIfs| then l.(natIfs := l.natIfs[j := ip]) else l
    case NeighDel(ip) => if ip == 0 then l else l.(natIfs := Zeroed(l.natIfs, ip))
    case NonNatAdd(ip, f) =>
      if !l.isSta && f.Plain? && ip != 0 then l.(nonNatIfs := ReplaceFirst(l.nonNatIfs, 0, ip)) else l
    case NonNatDel(ip) => if l.isSta then l else l.(nonNatIfs := ReplaceFirst(l.nonNatIfs, ip, 0))
    case StaAdd(ip) =>
      var j := FirstOfOrFree(l.staClnts, ip, 0);
      if l.staCnt >= MAX_STA_CLNT_IFACES || j == |l.staClnts| || l.staClnts[j] != 0 then l
      else l.(staClnts := l.staClnts[j := ip], staCnt := l.staCnt + 1)
    case StaDel(ip) =>
      if ip != 0 && FirstOf(l.staClnts, ip, 0) < |l.staClnts|
      then l.(staClnts := ReplaceFirst(l.staClnts, ip, 0), staCnt := l.staCnt - 1) else l
    case WanUp(ip, sta) => if l.wanUp || ip == 0 then l else l.(wanUp := true, isSta := sta, wanIp := ip)
    case WanDown(_) => l.(wanUp := false)
    case _ => l
  }

  function Handle(l: Listener, ev: Event): Listener {
    Lists(l, ev).(app := Run(l.app, Ops(l, ev)))
  }

  function HandleAll(l: Listener, evs: seq<Event>): Listener
    decreases |evs|
  {
    if evs == [] then l else HandleAll(Handle(l, evs[0]), evs[1..])
  }

  ghost predicate Fresh(l: Listener) {
    && Init(l.app) && !l.wanUp && l.staCnt == 0
    && |l.natIfs| == MAX_IFACE_ADDRESS && |l.nonNatIfs| == MAX_IFACE_ADDRESS && |l.staClnts| == MAX_STA_CLNT_IFACES
    && (forall i | 0 <= i < |l.natIfs| :: l.natIfs[i] == 0)
    && (forall i | 0 <= i < |l.nonNatIfs| :: l.nonNatIfs[i] == 0)
    && (forall i | 0 <= i < |l.staClnts| :: l.staClnts[i] == 0)
  }
}
