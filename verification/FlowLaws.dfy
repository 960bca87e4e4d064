/** What conntrack messages about a connection do, told from the connection itself: its private
    end, its target, its public port and its protocol. */
module FlowLaws {
  import opened NatTypes
  import opened NatHardware
  import opened NatSpec
  import opened NatInvariants
  import opened NatProperties
  import opened NatCollision
  import opened NatTemp
  import opened NatFlush
  import opened NatFrames
  import opened ListenerSpec
  import opened ListenerProperties

  datatype Flow = Flow(privateIp: nat, privatePort: nat, targetIp: nat, targetPort: nat, publicPort: nat, protocol: nat)

  /** The message of a connection that the private end opened: its first packet went from the
      private end to the target, and answers come to the public port. */
  ghost predicate Outbound(m: CtMsg, f: Flow) {
    && m.srcNat && !m.dstNat && m.origProto == m.replProto == f.protocol
    && m.origSrc == f.privateIp && m.origSport == f.privatePort && m.origDst == f.targetIp && m.origDport == f.targetPort
    && m.replSrc == f.targetIp && m.replSport == f.targetPort && m.replDport == f.publicPort
  }

  /** The message of a connection that the target opened: its first packet went to the public
      port, and answers come from the private end. */
  ghost predicate Inbound(m: CtMsg, f: Flow) {
    && m.dstNat && m.origProto == m.replProto == f.protocol
    && m.origSrc == f.targetIp && m.origSport == f.targetPort && m.origDport == f.publicPort
    && m.replSrc == f.privateIp && m.replSport == f.privatePort && m.replDport == f.targetPort
  }

  function KeyOf(f: Flow): Key { Key(f.privateIp, f.privatePort, f.targetIp, f.targetPort, f.protocol) }

  /** The rule for a flow: the public port, the WAN address, and who opened it. */
  ghost predicate RuleFor(e: Entry, f: Flow, wanIp: nat, inbound: bool) {
    e == Entry(KeyOf(f), wanIp, f.publicPort, 0, inbound, false, 0)
  }

  /** The flow as it is entered for clients outside the hardware path: its private end is the WAN
      address and the public port. */
  function Outside(f: Flow, wanIp: nat): Flow { f.(privateIp := wanIp, privatePort := f.publicPort) }

  /** A client of the flow is on the list. */
  ghost predicate Listed(a: seq<nat>, f: Flow) {
    (f.privateIp != 0 && f.privateIp in a) || (f.targetIp != 0 && f.targetIp in a)
  }

  /** In STA mode the flow's target is in the client subnet and none of the counted clients. */
  ghost predicate UnknownTarget(l: Listener, f: Flow) {
    && l.isSta && l.staCnt != 0 && |l.staClnts| > 0 && l.staClnts[0] / 256 == f.targetIp / 256
    && forall i | 0 <= i < |l.staClnts| && i < l.staCnt :: l.staClnts[i] != f.targetIp
  }

  lemma OnListIff(a: seq<nat>, e: Entry, f: Flow)
    requires e.key == KeyOf(f)
    ensures OnList(a, e) <==> Listed(a, f)
  {
    if i :| 0 <= i < |a| && a[i] == f.privateIp && a[i] != 0 {
      assert a[i] == e.key.privateIp;
    }
    if i :| 0 <= i < |a| && a[i] == f.targetIp && a[i] != 0 {
      assert a[i] == e.key.targetIp;
    }
  }

  lemma UnknownIff(l: Listener, e: Entry, f: Flow)
    requires e.key.targetIp == f.targetIp
    ensures UnknownStaClient(l, e) <==> UnknownTarget(l, f)
  {
    var p := Prefix(l.staClnts, l.staCnt);
    assert forall i | 0 <= i < |p| :: p[i] == l.staClnts[i];
    if i :| 0 <= i < |l.staClnts| && i < l.staCnt && l.staClnts[i] == f.targetIp {
      assert p[i] == f.targetIp;
    }
  }

  /** The listener makes the flow a rule of its own, or a rule outside the hardware path. */
  datatype Kind = Own | Dummy | Waits | Ignored

  /** How the listener sees the flow: connections of the device itself and of plain clients are
      entered outside the hardware path, those of NATed clients as they are, those of unknown
      private addresses wait, all others are ignored. */
  ghost function KindOf(l: Listener, m: CtMsg, f: Flow): Kind {
    if f.privateIp == l.wanIp then (if l.isSta then Ignored else Dummy)
    else if (m.passthrough && f.privateIp == m.gatewayIp) || Listed(l.natIfs, f) then Own
    else if !l.isSta && Listed(l.nonNatIfs, f) then Dummy
    else if m.isPrivate(f.privateIp) || m.isPrivate(f.targetIp) then Waits
    else Ignored
  }

  /** Whichever end opened a connection, its messages give the same key, the WAN address as public
      address and the public port; who opened it is remembered. */
  lemma FlowVerdict(l: Listener, m: CtMsg, f: Flow)
    requires (Outbound(m, f) || Inbound(m, f)) && f.protocol in {TCP, UDP}
    ensures var k := KindOf(l, m, f);
      var v := Judge(l, m);
      && (v.Ignore? <==> k.Ignored?)
      && (v.Use? ==> RuleFor(v.rule, if k.Dummy? then Outside(f, l.wanIp) else f, l.wanIp, m.dstNat))
      && (v.Use? ==> (v.isTemp <==> k.Waits? || UnknownTarget(l, f)))
  {
    var e := Entry(KeyOf(f), l.wanIp, f.publicPort, 0, m.dstNat, false, 0);
    assert Populate(l.wanIp, m, DirectionOf(l, m)) == e;
    OnListIff(l.natIfs, e, f);
    OnListIff(l.nonNatIfs, e, f);
    UnknownIff(l, e, f);
    UnknownIff(l, Dummied(e, true), f);
    UnknownIff(l, e.(key := e.key.(privatePort := e.publicPort)), f);
    hide OnList, Listed, UnknownStaClient, UnknownTarget, Populate, DirectionOf;
  }

  /** The two messages of one connection name one key. */
  lemma OneKey(l: Listener, m: CtMsg, n: CtMsg, f: Flow)
    requires Outbound(m, f) && Inbound(n, f) && f.protocol in {TCP, UDP} && m.passthrough == n.passthrough
    requires m.gatewayIp == n.gatewayIp && m.isPrivate == n.isPrivate
    ensures var a, b := Judge(l, m), Judge(l, n);
      && (a.Ignore? <==> b.Ignore?)
      && (a.Use? ==> a.rule.key == b.rule.key && a.rule.publicPort == b.rule.publicPort == f.publicPort && a.isTemp == b.isTemp)
      && (a.Use? && KindOf(l, m, f).Own? ==> a.rule.key == Key(f.privateIp, f.privatePort, f.targetIp, f.targetPort, f.protocol))
  {
    FlowVerdict(l, m, f);
    FlowVerdict(l, n, f);
  }

  /** Without NAT flags a message counts as opened by the device if its source is the WAN address,
      as opened by the target if its destination is, and is ignored otherwise; with both flags
      the destination flag decides; other protocols are ignored. */
  lemma Unflagged(l: Listener, m: CtMsg)
    ensures !m.srcNat && !m.dstNat && m.origSrc != 0 && m.origDst != 0 ==>
      Judge(l, m) == if m.origSrc == l.wanIp then Judge(l, m.(srcNat := true))
                     else if m.origDst == l.wanIp then Judge(l, m.(dstNat := true)) else Ignore
    ensures !m.srcNat && !m.dstNat && (m.origSrc == 0 || m.origDst == 0) ==> Judge(l, m).Ignore?
    ensures m.dstNat ==> Judge(l, m) == Judge(l, m.(srcNat := !m.srcNat))
    ensures m.origProto !in {TCP, UDP} ==> Judge(l, m).Ignore?
  {
    hide AddIface, UnknownStaClient;
    if !m.srcNat && !m.dstNat {
      SameAddIface(l, m, m.(srcNat := true));
      SameAddIface(l, m, m.(dstNat := true));
    }
    SameAddIface(l, m, m.(srcNat := !m.srcNat));
  }

  lemma SameAddIface(l: Listener, m: CtMsg, n: CtMsg)
    requires m.passthrough == n.passthrough && m.gatewayIp == n.gatewayIp && m.isPrivate == n.isPrivate
    ensures forall e :: AddIface(l, m, e) == AddIface(l, n, e)
  {
  }

  // --------------------------------------------------------------------- opening

  /** The flow's first established state or first packet. */
  ghost predicate Opening(m: CtMsg, f: Flow) {
    (f.protocol == TCP && m.tcp.Established?) || (f.protocol == UDP && m.kind.New?)
  }

  /** The flow's end. */
  ghost predicate Closing(m: CtMsg, f: Flow) {
    (f.protocol == TCP && !m.tcp.Established? && (m.tcp.FinWait? || m.kind.Destroy?)) || (f.protocol == UDP && m.kind.Destroy?)
  }

  /** Everything but NatApp is as before. */
  ghost predicate SameLists(l: Listener, t: Listener) { t == l.(app := t.app) }

  /** What an accepted opening leaves: served if it can enter, else no key of the cache changes;
      the temp list is left alone. */
  ghost predicate Opened(l: Listener, t: Listener, e: Entry) {
    && SameLists(l, t) && t.app.temp == l.app.temp && Inv(t.app)
    && (Enters(l.app, e) ==> Served(t.app, e))
    && (HasKey(t.app.cache, e.key) <==> HasKey(l.app.cache, e.key) || Enters(l.app, e))
  }

  lemma OpenEntry(l: Listener, m: CtMsg, e: Entry)
    requires Inv(l.app) && l.wanUp && Judge(l, m) == Use(e, false) && Opens(m, e.key.protocol) && FullKey(e.key)
    ensures Opened(l, Handle(l, Conntrack(m)), e)
  {
    hide Judge;
    RunOne(l.app, OpAddEntry(e));
    assert Handle(l, Conntrack(m)) == l.(app := AddEntry(l.app, e).s);
    hide Handle, Run, Opens;
    var c := AddEntryAccepts(l.app, e);
    AddEntryKeeps(l.app, e);
    AddEntryKeys(l.app, e);
    if Enters(l.app, e) {
      assert ServedAt(AddEntry(l.app, e).s, c, e);
    }
  }

  /** WAN up, a NATed client's connection opens. */
  lemma OpenOwn(l: Listener, m: CtMsg, f: Flow) returns (e: Entry)
    requires Inv(l.app) && l.wanUp && (Outbound(m, f) || Inbound(m, f)) && Opening(m, f)
    requires KindOf(l, m, f).Own? && !UnknownTarget(l, f) && FullKey(KeyOf(f))
    ensures RuleFor(e, f, l.wanIp, m.dstNat) && Opened(l, Handle(l, Conntrack(m)), e)
  {
    FlowVerdict(l, m, f);
    e := Judge(l, m).rule;
    hide Judge, Inv, Opened, Outbound, Inbound, KindOf, UnknownTarget;
    OpenEntry(l, m, e);
  }

  /** WAN up, a connection of the device or of a plain client opens: it is entered outside the
      hardware path. */
  lemma OpenDummy(l: Listener, m: CtMsg, f: Flow) returns (e: Entry)
    requires Inv(l.app) && l.wanUp && (Outbound(m, f) || Inbound(m, f)) && Opening(m, f)
    requires KindOf(l, m, f).Dummy? && FullKey(KeyOf(Outside(f, l.wanIp)))
    ensures RuleFor(e, Outside(f, l.wanIp), l.wanIp, m.dstNat) && Opened(l, Handle(l, Conntrack(m)), e)
  {
    FlowVerdict(l, m, f);
    assert !UnknownTarget(l, f);
    e := Judge(l, m).rule;
    hide Judge, Inv, Opened, Outbound, Inbound, KindOf, UnknownTarget;
    OpenEntry(l, m, e);
  }

  /** WAN up, a connection of an unknown private address, or to an unknown STA client, opens: it
      waits if it can, and cache and hardware are left alone. */
  lemma OpenWaiting(l: Listener, m: CtMsg, f: Flow) returns (e: Entry)
    requires l.wanUp && (Outbound(m, f) || Inbound(m, f)) && Opening(m, f) && FullKey(KeyOf(f))
    requires KindOf(l, m, f).Waits? || (KindOf(l, m, f).Own? && UnknownTarget(l, f))
    ensures RuleFor(e, f, l.wanIp, m.dstNat)
    ensures var t := Handle(l, Conntrack(m));
      && SameLists(l, t) && t.app == l.app.(temp := t.app.temp)
      && (HasKey(t.app.temp, KeyOf(f)) <==>
            HasKey(l.app.temp, KeyOf(f)) || (!UsesAlgPort(l.app, KeyOf(f)) && !HasKey(l.app.cache, KeyOf(f)) && HasBlank(l.app.temp)))
      && (t.app != l.app ==> e in t.app.temp)
  {
    FlowVerdict(l, m, f);
    e := Judge(l, m).rule;
    RunOne(l.app, OpAddTemp(e));
    hide Judge;
    AddTempAccepts(l.app, e);
  }

  /** WAN down, any connection the listener uses is cached if it can be, not in the hardware. */
  lemma OpenWhileDown(l: Listener, m: CtMsg, f: Flow) returns (e: Entry)
    requires Inv(l.app) && !l.wanUp && (Outbound(m, f) || Inbound(m, f)) && Opening(m, f) && !KindOf(l, m, f).Ignored?
    requires FullKey(KeyOf(if KindOf(l, m, f).Dummy? then Outside(f, l.wanIp) else f))
    ensures RuleFor(e, if KindOf(l, m, f).Dummy? then Outside(f, l.wanIp) else f, l.wanIp, m.dstNat)
    ensures var t := Handle(l, Conntrack(m));
      && SameLists(l, t) && t.app.temp == l.app.temp && t.app.hw == l.app.hw
      && (HasKey(t.app.cache, e.key) <==> HasKey(l.app.cache, e.key) || HasKey(l.app.cache, ZERO_KEY))
      && (t.app != l.app ==> exists c ::
            0 <= c < |t.app.cache| && Filled(l.app.cache, t.app.cache, c, e) && !t.app.cache[c].enabled && t.app.cache[c].publicIp == l.wanIp)
  {
    FlowVerdict(l, m, f);
    e := Judge(l, m).rule;
    RunOne(l.app, OpCacheEntry(e));
    hide Judge;
    var c := CacheEntryAccepts(l.app, e);
    if CacheEntry(l.app, e) != l.app {
      assert Filled(l.app.cache, CacheEntry(l.app, e).cache, c, e);
    }
  }

  /** A message that neither opens nor closes its connection, or is ignored, changes nothing. */
  lemma NoEffect(l: Listener, m: CtMsg, f: Flow)
    requires (Outbound(m, f) || Inbound(m, f)) && (KindOf(l, m, f).Ignored? || (!Opening(m, f) && !Closing(m, f)) || f.protocol !in {TCP, UDP})
    ensures Handle(l, Conntrack(m)) == l
  {
    if f.protocol in {TCP, UDP} {
      FlowVerdict(l, m, f);
    }
    RunNone(l.app);
    hide Judge;
    if f.protocol !in {TCP, UDP} {
      Unflagged(l, m);
    }
  }

  // ---------------------------------------------------------------------- closing

  /** A closing message removes its connection and no other: no slot of the cache with another key
      and no other waiting entry changes. */
  lemma CloseFlow(l: Listener, m: CtMsg, f: Flow)
    requires Inv(l.app) && DistinctKeys(l.app.temp) && (Outbound(m, f) || Inbound(m, f)) && Closing(m, f) && !KindOf(l, m, f).Ignored?
    ensures var k := KeyOf(if KindOf(l, m, f).Dummy? then Outside(f, l.wanIp) else f);
      var t := Handle(l, Conntrack(m));
      && SameLists(l, t) && !HasKey(t.app.cache, k) && !HasKey(t.app.temp, k)
      && |t.app.cache| == |l.app.cache| && |t.app.temp| == |l.app.temp|
      && (forall i | 0 <= i < |l.app.cache| && l.app.cache[i].key != k :: t.app.cache[i] == l.app.cache[i])
      && (forall i | 0 <= i < |l.app.temp| && l.app.temp[i].key != k :: t.app.temp[i] == l.app.temp[i])
  {
    FlowVerdict(l, m, f);
    var k := Judge(l, m).rule.key;
    hide Judge, Outbound, Inbound, KindOf, UnknownTarget;
    CloseUse(l, m, k);
    hide Handle, Closing;
    CloseConnection(l.app, k);
    CloseFrame(l.app, k);
    hide DeleteEntry, DeleteTempEntry, HasKey, Inv;
  }

  lemma CloseUse(l: Listener, m: CtMsg, k: Key)
    requires Judge(l, m).Use? && Judge(l, m).rule.key == k && Closes(m, k.protocol)
    ensures Handle(l, Conntrack(m)) == l.(app := DeleteTempEntry(DeleteEntry(l.app, k), k))
  {
    hide Judge, DeleteEntry, DeleteTempEntry;
    RunTwo(l.app, OpDeleteEntry(k), OpDeleteTemp(k));
  }

  lemma CloseFrame(s: State, k: Key)
    ensures var t := DeleteTempEntry(DeleteEntry(s, k), k);
      && |t.cache| == |s.cache| && |t.temp| == |s.temp|
      && (forall i | 0 <= i < |s.cache| && s.cache[i].key != k :: t.cache[i] == s.cache[i])
      && (forall i | 0 <= i < |s.temp| && s.temp[i].key != k :: t.temp[i] == s.temp[i])
  {
    DeleteFrame(s, k);
    TempFrame(DeleteEntry(s, k), ZERO_ENTRY, k);
    hide DeleteEntry, DeleteTempEntry;
  }

  // --------------------------------------------------------------------- WAN address

  /** After a WAN-up event with an address, the listener is up in the given mode, and every rule
      it makes of a flow carries that address as public address. */
  lemma WanAddressUsed(l: Listener, ip: nat, sta: bool, m: CtMsg, f: Flow)
    requires !l.wanUp && ip != 0 && (Outbound(m, f) || Inbound(m, f)) && f.protocol in {TCP, UDP}
    ensures var t := Handle(l, WanUp(ip, sta));
      && t.wanUp && t.isSta == sta && t.natIfs == l.natIfs && t.nonNatIfs == l.nonNatIfs && t.staClnts == l.staClnts && t.staCnt == l.staCnt
      && (Judge(t, m).Use? ==> Judge(t, m).rule.publicIp == ip)
      && (f.privateIp == ip ==> (Judge(t, m).Use? <==> !sta))
  {
    FlowVerdict(Handle(l, WanUp(ip, sta)), m, f);
  }
}
