/** The conntrack listener as the source writes it: scans over address arrays followed by
    NatApp calls. Every handler is proved to compute ListenerSpec.Handle. */
module ConntrackListenerClass {
  import opened NatTypes
  import opened NatHardware
  import opened NatSpec
  import opened ListenerSpec
  import opened NatAppClass

  class ConntrackListener {
    const app: NatApp
    const natIfs: array<nat>
    const nonNatIfs: array<nat>
    const staClnts: array<nat>
    var staCnt: int
    var wanUp: bool
    var isSta: bool
    var wanIp: nat

    ghost predicate Valid()
      reads this, app
    {
      && app.Valid() && natIfs != nonNatIfs && natIfs != staClnts && nonNatIfs != staClnts
      && natIfs != app.pwrSaveIfs && nonNatIfs != app.pwrSaveIfs && staClnts != app.pwrSaveIfs
      && natIfs.Length == MAX_IFACE_ADDRESS && nonNatIfs.Length == MAX_IFACE_ADDRESS
      && staClnts.Length == MAX_STA_CLNT_IFACES && staCnt <= MAX_STA_CLNT_IFACES
    }

    ghost function Value(): Listener
      reads this, natIfs, nonNatIfs, staClnts, app, app.cache, app.temp, app.pwrSaveIfs, app.driver
    {
      Listener(app.Value(), natIfs[..], nonNatIfs[..], staClnts[..], staCnt, wanUp, isSta, wanIp)
    }

    /** STA mode and the WAN address start out unset in the source, hence arbitrary. */
    constructor (app: NatApp, isSta: bool, wanIp: nat)
      requires app.Valid() && Init(app.Value())
      ensures Valid() && Fresh(Value()) && this.app == app
    {
      this.app := app;
      natIfs := new nat[MAX_IFACE_ADDRESS](_ => 0);
      nonNatIfs := new nat[MAX_IFACE_ADDRESS](_ => 0);
      staClnts := new nat[MAX_STA_CLNT_IFACES](_ => 0);
      staCnt, wanUp := 0, false;
      this.isSta, this.wanIp := isSta, wanIp;
    }

    method HandleNeighIpAddrAddEvt(ip: nat, iface: Iface)
      requires Valid()
      modifies natIfs, app`curCnt, app.cache, app.temp, app.pwrSaveIfs, app.driver
      ensures Valid() && Value() == Handle(old(Value()), NeighAdd(ip, iface))
    {
      hide Run, Apply;
      RunNone(app.Value());
      if ip == 0 || !iface.Natted? { return; }
      var j := FindAddrOrFree(natIfs, ip);
      if j < natIfs.Length {
        if natIfs[j] == 0 { natIfs[j] := ip; }
        assert natIfs[..] == old(natIfs[..])[j := ip];
        RestoreClient(ip);
      }
    }

    method RestoreClient(ip: nat)
      requires app.Valid()
      modifies app`curCnt, app.cache, app.temp, app.pwrSaveIfs, app.driver
      ensures app.Value() == Run(old(app.Value()), [OpResetPwrSave(ip), OpFlush(ip, true, false)])
    {
      RunTwo(app.Value(), OpResetPwrSave(ip), OpFlush(ip, true, false));
      var _ := app.ResetPwrSaveIf(ip);
      app.FlushTempEntries(ip, true, false);
    }

    method FindAddrOrFree(a: array<nat>, x: nat) returns (i: nat)
      ensures i == FirstOfOrFree(a[..], x, 0)
    {
      i := 0;
      while i < a.Length && a[i] != x && a[i] != 0
        invariant i <= a.Length && FirstOfOrFree(a[..], x, 0) == FirstOfOrFree(a[..], x, i)
      {
        i := i + 1;
      }
    }

    /** One round of the delete loop. */
    method DropClient(ip: nat)
      requires app.Valid()
      modifies app`curCnt, app.cache, app.temp, app.pwrSaveIfs, app.driver
      ensures app.Value() == Run(old(app.Value()), [OpFlush(ip, false, false), OpClntDiscon(ip)])
    {
      RunTwo(app.Value(), OpFlush(ip, false, false), OpClntDiscon(ip));
      app.FlushTempEntries(ip, false, false);
      var _ := app.DelEntriesOnClntDiscon(ip);
    }

    method HandleNeighIpAddrDelEvt(ip: nat)
      requires Valid()
      modifies natIfs, app`curCnt, app.cache, app.temp, app.pwrSaveIfs, app.driver
      ensures Valid() && Value() == Handle(old(Value()), NeighDel(ip))
    {
      if ip == 0 { return; }
      DropCopies(ip);
    }

    method DropAt(i: nat, ip: nat)
      requires Valid() && i < natIfs.Length
      modifies natIfs, app`curCnt, app.cache, app.temp, app.pwrSaveIfs, app.driver
      ensures natIfs[i] == 0 && forall j | 0 <= j < natIfs.Length && j != i :: natIfs[j] == old(natIfs[j])
      ensures app.Value() == Run(old(app.Value()), [OpFlush(ip, false, false), OpClntDiscon(ip)])
    {
      natIfs[i] := 0;
      DropClient(ip);
    }

    method DropCopies(ip: nat)
      requires Valid() && ip != 0
      modifies natIfs, app`curCnt, app.cache, app.temp, app.pwrSaveIfs, app.driver
      ensures natIfs[..] == Zeroed(old(natIfs[..]), ip)
      ensures app.Value() == Run(old(app.Value()), DelRounds(ip, Copies(old(natIfs[..]), ip, 0)))
    {
      hide Apply, FlushFrom, SweepFrom;
      ghost var a, s := natIfs[..], app.Value();
      for i := 0 to natIfs.Length
        invariant forall j | 0 <= j < i :: natIfs[j] == if a[j] == ip then 0 else a[j]
        invariant forall j | i <= j < natIfs.Length :: natIfs[j] == a[j]
        invariant Run(app.Value(), DelRounds(ip, Copies(a, ip, i))) == Run(s, DelRounds(ip, Copies(a, ip, 0)))
      {
        if natIfs[i] == ip {
          RunRound(app.Value(), ip, Copies(a, ip, i));
          DropAt(i, ip);
        }
      }
    }

    method HandleNonNatIPAddr(ip: nat, iface: Iface, addOp: bool)
      requires Valid()
      modifies nonNatIfs, app`curCnt, app.cache, app.temp, app.pwrSaveIfs, app.driver
      ensures Valid() && Value() == Handle(old(Value()), if addOp then NonNatAdd(ip, iface) else NonNatDel(ip))
    {
      hide Run, Apply;
      if isSta {
        RunNone(app.Value());
        return;
      }
      if addOp {
        RunNone(app.Value());
        if ip == 0 || !iface.Plain? { return; }
        var j := FindAddr(nonNatIfs, 0);
        if j < nonNatIfs.Length {
          nonNatIfs[j] := ip;
          Flush(ip, true, true);
        }
      } else {
        RunNone(app.Value());
        var j := FindAddr(nonNatIfs, ip);
        if j < nonNatIfs.Length {
          nonNatIfs[j] := 0;
          DropClient(ip);
        }
      }
    }

    method Flush(ip: nat, isAdd: bool, isDummy: bool)
      requires app.Valid()
      modifies app`curCnt, app.cache, app.temp, app.driver
      ensures app.Value() == Run(old(app.Value()), [OpFlush(ip, isAdd, isDummy)])
    {
      RunOne(app.Value(), OpFlush(ip, isAdd, isDummy));
      app.FlushTempEntries(ip, isAdd, isDummy);
    }

    method FindAddr(a: array<nat>, x: nat) returns (i: nat)
      ensures i == FirstOf(a[..], x, 0)
    {
      i := 0;
      while i < a.Length && a[i] != x
        invariant i <= a.Length && FirstOf(a[..], x, 0) == FirstOf(a[..], x, i)
      {
        i := i + 1;
      }
    }

    method HandleSTAClientAddEvt(ip: nat)
      requires Valid()
      modifies this`staCnt, staClnts, app`curCnt, app.cache, app.temp, app.driver
      ensures Valid() && Value() == Handle(old(Value()), StaAdd(ip))
    {
      hide Run, Apply;
      if staCnt >= MAX_STA_CLNT_IFACES {
        RunNone(app.Value());
        return;
      }
      var j := FindAddrOrFree(staClnts, ip);
      if j < staClnts.Length && staClnts[j] == 0 {
        staClnts[j] := ip;
        staCnt := staCnt + 1;
      }
      Flush(ip, true, false);
    }

    method HandleSTAClientDelEvt(ip: nat)
      requires Valid()
      modifies this`staCnt, staClnts, app`curCnt, app.cache, app.temp, app.driver
      ensures Valid() && Value() == Handle(old(Value()), StaDel(ip))
    {
      hide Run, Apply;
      var j := staClnts.Length;
      if ip != 0 { j := FindAddr(staClnts, ip); }
      if j < staClnts.Length {
        staClnts[j] := 0;
        DropStaClient(ip);
        staCnt := staCnt - 1;
      } else {
        Flush(ip, false, false);
      }
    }

    method DropStaClient(ip: nat)
      requires app.Valid()
      modifies app`curCnt, app.cache, app.temp, app.driver
      ensures app.Value() == Run(old(app.Value()), [OpStaDiscon(ip), OpFlush(ip, false, false)])
    {
      RunTwo(app.Value(), OpStaDiscon(ip), OpFlush(ip, false, false));
      var _ := app.DelEntriesOnSTAClntDiscon(ip);
      app.FlushTempEntries(ip, false, false);
    }

    /** WAN up, with the guard of the event switch. */
    method TriggerWANUp(ip: nat, sta: bool)
      requires Valid()
      modifies this`wanUp, this`isSta, this`wanIp, app, app.cache, app.driver
      ensures Valid() && Value() == Handle(old(Value()), WanUp(ip, sta))
    {
      if wanUp || ip == 0 { return; }
      wanUp, isSta, wanIp := true, sta, ip;
      RunOne(app.Value(), OpAddTable(ip));
      var _ := app.AddTable(ip);
    }

    /** WAN down, with the guard of the event switch. */
    method TriggerWANDown(ip: nat)
      requires Valid()
      modifies this`wanUp, app, app.cache, app.driver
      ensures Valid() && Value() == Handle(old(Value()), WanDown(ip))
    {
      if !wanUp { return; }
      wanUp := false;
      RunOne(app.Value(), OpDeleteTable(ip));
      var _ := app.DeleteTable(ip);
    }

    method ScanList(a: array<nat>, e: Entry) returns (found: bool)
      ensures found <==> OnList(a[..], e)
    {
      for i := 0 to a.Length
        invariant forall j | 0 <= j < i :: !(a[j] != 0 && (e.key.privateIp == a[j] || e.key.targetIp == a[j]))
      {
        if a[i] != 0 && (e.key.privateIp == a[i] || e.key.targetIp == a[i]) {
          assert a[..][i] != 0 && (e.key.privateIp == a[..][i] || e.key.targetIp == a[..][i]);
          return true;
        }
      }
      return false;
    }

    method AddIfaceFor(m: CtMsg, e: Entry) returns (v: Verdict)
      requires Valid()
      ensures v == AddIface(Value(), m, e)
    {
      if m.passthrough && e.key.privateIp == m.gatewayIp { return Use(e, false); }
      var natted := ScanList(natIfs, e);
      if natted { return Use(e, false); }
      if !isSta {
        var plain := ScanList(nonNatIfs, e);
        if plain {
          return Use(e.(key := e.key.(privateIp := e.publicIp, privatePort := e.publicPort)), false);
        }
      }
      if m.isPrivate(e.key.privateIp) || m.isPrivate(e.key.targetIp) { return Use(e, true); }
      return Ignore;
    }

    method CheckSTAClient(e: Entry, isTemp: bool) returns (r: bool)
      requires Valid()
      ensures r <==> isTemp || UnknownStaClient(Value(), e)
    {
      if !isSta || staCnt == 0 { return isTemp; }
      if staClnts[0] / 256 != e.key.targetIp / 256 { return isTemp; }
      var i := 0;
      while i < staCnt
        invariant 0 <= i && (staCnt >= 0 ==> i <= staCnt) && (staCnt < 0 ==> i == 0)
        invariant forall j | 0 <= j < i :: staClnts[j] != e.key.targetIp
      {
        if staClnts[i] == e.key.targetIp {
          assert Prefix(staClnts[..], staCnt)[i] == e.key.targetIp;
          return isTemp;
        }
        i := i + 1;
      }
      return true;
    }

    method AddORDeleteNatEntry(m: CtMsg, e: Entry, isTemp: bool)
      requires Valid() && Judge(Value(), m) == Use(e, isTemp)
      modifies app`curCnt, app.cache, app.temp, app.driver
      ensures Valid() && Value() == Handle(old(Value()), Conntrack(m))
    {
      hide Run, Apply, Judge;
      RunNone(app.Value());
      var tcp := e.key.protocol == TCP;
      if (tcp && m.tcp.Established?) || (!tcp && e.key.protocol == UDP && m.kind.New?) {
        OpenConnection(e, isTemp);
      } else if (tcp && (m.tcp.FinWait? || m.kind.Destroy?)) || (e.key.protocol == UDP && m.kind.Destroy?) {
        CloseConnection(e.key);
      }
    }

    /** Cache it while the WAN is down, keep it waiting, or give it to the hardware. */
    method OpenConnection(e: Entry, isTemp: bool)
      requires app.Valid()
      modifies app`curCnt, app.cache, app.temp, app.driver
      ensures app.Value() == Run(old(app.Value()), [if !wanUp then OpCacheEntry(e) else if isTemp then OpAddTemp(e) else OpAddEntry(e)])
    {
      RunOne(app.Value(), if !wanUp then OpCacheEntry(e) else if isTemp then OpAddTemp(e) else OpAddEntry(e));
      if !wanUp {
        app.CacheEntry(e);
      } else if isTemp {
        app.AddTempEntry(e);
      } else {
        var _ := app.AddEntry(e);
      }
    }

    method CloseConnection(k: Key)
      requires app.Valid()
      modifies app`curCnt, app.cache, app.temp, app.driver
      ensures app.Value() == Run(old(app.Value()), [OpDeleteEntry(k), OpDeleteTemp(k)])
    {
      RunTwo(app.Value(), OpDeleteEntry(k), OpDeleteTemp(k));
      app.DeleteEntry(k);
      app.DeleteTempEntry(k);
    }

    method ProcessCTMessage(m: CtMsg)
      requires Valid()
      modifies app`curCnt, app.cache, app.temp, app.driver
      ensures Valid() && Value() == Handle(old(Value()), Conntrack(m))
    {
      if m.origProto != UDP && m.origProto != TCP { return; }
      var dst;
      if m.dstNat {
        dst := true;
      } else if m.srcNat {
        dst := false;
      } else {
        if m.origSrc == 0 || m.origDst == 0 { return; }
        if m.origSrc == wanIp {
          dst := false;
        } else if m.origDst == wanIp {
          dst := true;
        } else {
          return;
        }
      }
      var e := Populate(wanIp, m, if dst then DstNat else SrcNat);
      var isTemp := false;
      if e.key.privateIp != wanIp {
        var v := AddIfaceFor(m, e);
        if v.Ignore? { return; }
        e, isTemp := v.rule, v.isTemp;
      } else {
        if isSta { return; }
        e := e.(key := e.key.(privatePort := e.publicPort));
      }
      isTemp := CheckSTAClient(e, isTemp);
      AddORDeleteNatEntry(m, e, isTemp);
    }
  }
}
