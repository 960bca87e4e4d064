/** What the arrival and the departure of STA clients and of plain clients leave. */
module ClientLaws {
  import opened NatTypes
  import opened NatHardware
  import opened NatSpec
  import opened NatInvariants
  import opened NatProperties
  import opened NatCollision
  import opened NatTemp
  import opened NatFlush
  import opened ListenerSpec
  import opened ListenerProperties

  /** `b` is `a` with the first `x` replaced by `y`, if there is one. */
  ghost predicate FirstReplaced(a: seq<nat>, b: seq<nat>, x: nat, y: nat) {
    || (x !in a && b == a)
    || exists i :: 0 <= i < |a| && a[i] == x && x !in a[..i] && b == a[i := y]
  }

  lemma ReplacesFirst(a: seq<nat>, x: nat, y: nat)
    ensures FirstReplaced(a, ReplaceFirst(a, x, y), x, y)
  {
    var i := FirstOf(a, x, 0);
    if i < |a| {
      assert x !in a[..i];
    }
  }

  /** A discarding flush empties the entries that mention the address and leaves all others alone. */
  ghost predicate Discarded(s: State, t: State, ip: nat) {
    |t.temp| == |s.temp| && forall j | 0 <= j < |s.temp| :: t.temp[j] == if Mentions(s.temp[j], ip) then ZERO_ENTRY else s.temp[j]
  }

  lemma DiscardExact(s: State, ip: nat)
    requires Inv(s)
    ensures var t := FlushFrom(s, 0, ip, false, false); t == s.(temp := t.temp) && Discarded(s, t, ip)
  {
    DiscardKeepsCache(s, 0, ip);
    FlushOutcome(s, 0, ip, false, false);
    var t := FlushFrom(s, 0, ip, false, false);
    forall j | 0 <= j < |s.temp| ensures t.temp[j] == if Mentions(s.temp[j], ip) then ZERO_ENTRY else s.temp[j] {
      assert Flushed(s.temp[j], t.temp[j], t.cache, s.pubIp, ip, false, false);
    }
  }

  // -------------------------------------------------------------------- STA clients

  /** A registered STA client leaves, with granted driver calls if there is a table, and without a
      table always: it is taken off the list and the count once, no cached connection and, without
      orphans, no hardware rule targets it, nothing that mentions it waits, all else stays. */
  lemma StaDeparts(l: Listener, ip: nat)
    requires Inv(l.app) && ip != 0 && ip in l.staClnts
    requires l.app.hw.table ==> l.app.tbl != 0 && Granted(l.app.hw.fate, l.app.hw.calls, DelEntriesOnSTAClntDiscon(l.app, ip).s.hw.calls)
    ensures var t := Handle(l, StaDel(ip));
      && FirstReplaced(l.staClnts, t.staClnts, ip, 0) && t.staCnt == l.staCnt - 1
      && t == l.(app := t.app, staClnts := t.staClnts, staCnt := t.staCnt)
      && |t.app.cache| == |l.app.cache|
      && (forall i | 0 <= i < |l.app.cache| ::
            t.app.cache[i] == if l.app.cache[i].key.targetIp == ip then ZERO_ENTRY else l.app.cache[i])
      && (Orphans(l.app) == {} ==> forall h | h in t.app.hw.rules :: t.app.hw.rules[h].key.targetIp != ip)
      && Discarded(l.app, t.app, ip)
  {
    ReplacesFirst(l.staClnts, ip, 0);
    assert FirstOf(l.staClnts, ip, 0) < |l.staClnts|;
    RunTwo(l.app, OpStaDiscon(ip), OpFlush(ip, false, false));
    var u := DelEntriesOnSTAClntDiscon(l.app, ip).s;
    assert Handle(l, StaDel(ip)).app == FlushFrom(u, 0, ip, false, false);
    StaLeft(l.app, ip);
    hide FlushFrom, Run, Inv, DelEntriesOnSTAClntDiscon, Orphans, Discarded, FirstReplaced;
  }

  lemma StaLeft(s: State, ip: nat)
    requires Inv(s) && ip != 0
    requires s.hw.table ==> s.tbl != 0 && Granted(s.hw.fate, s.hw.calls, DelEntriesOnSTAClntDiscon(s, ip).s.hw.calls)
    ensures var t := FlushFrom(DelEntriesOnSTAClntDiscon(s, ip).s, 0, ip, false, false);
      && |t.cache| == |s.cache|
      && (forall i | 0 <= i < |s.cache| :: t.cache[i] == if s.cache[i].key.targetIp == ip then ZERO_ENTRY else s.cache[i])
      && (Orphans(s) == {} ==> forall h | h in t.hw.rules :: t.hw.rules[h].key.targetIp != ip)
      && Discarded(s, t, ip)
  {
    StaClientLeaves(s, ip);
    var u := DelEntriesOnSTAClntDiscon(s, ip).s;
    SweepTemp(s, 0, StaLeave(ip));
    ApplyExact(s, OpStaDiscon(ip));
    DiscardExact(u, ip);
    hide FlushFrom, SweepFrom, Inv, Orphans;
  }

  /** An unregistered one only has its waiting entries discarded. */
  lemma UnknownStaDeparts(l: Listener, ip: nat)
    requires Inv(l.app) && (ip == 0 || ip !in l.staClnts)
    ensures var t := Handle(l, StaDel(ip)); t == l.(app := l.app.(temp := t.app.temp)) && Discarded(l.app, t.app, ip)
  {
    RunOne(l.app, OpFlush(ip, false, false));
    DiscardExact(l.app, ip);
  }

  /** A new STA client is listed in the first free slot and counted, unless it is listed before it
      or there are too many. */
  lemma StaListed(l: Listener, ip: nat)
    requires ip != 0 && l.staCnt < MAX_STA_CLNT_IFACES
    ensures var t := Lists(l, StaAdd(ip));
      && (0 in l.staClnts ==> ip in t.staClnts) && t == l.(staClnts := t.staClnts, staCnt := t.staCnt)
      && ((t.staClnts == l.staClnts && t.staCnt == l.staCnt)
          || (FirstReplaced(l.staClnts, t.staClnts, 0, ip) && ip !in l.staClnts[..FirstOf(l.staClnts, 0, 0)] && t.staCnt == l.staCnt + 1))
  {
    var c := FirstOfOrFree(l.staClnts, ip, 0);
    if c < |l.staClnts| {
      assert l.staClnts[c := ip][c] == ip;
      if l.staClnts[c] == 0 {
        assert 0 !in l.staClnts[..c];
        assert FirstOf(l.staClnts, 0, 0) == c;
      }
    }
  }

  /** The waiting connections of a new STA client are served, given a handle, room and grants. */
  lemma StaArrives(l: Listener, ip: nat, j: nat)
    requires Inv(l.app) && ip != 0 && l.staCnt < MAX_STA_CLNT_IFACES
    requires j < |l.app.temp| && Offered(l.app, l.app.temp[j], ip) && Ample(l.app, 0, ip) && NewKey(l.app, 0, j, ip, false)
    ensures var t := Handle(l, StaAdd(ip)).app;
      |t.temp| == |l.app.temp| && t.temp[j] == ZERO_ENTRY && Served(t, l.app.temp[j])
  {
    RunOne(l.app, OpFlush(ip, true, false));
    FlushServes(l.app, j, ip, false);
    hide FlushFrom, Run, Inv, Ample, NewKey;
  }

  // ------------------------------------------------------------------ plain clients

  /** A plain client appears outside STA mode: it takes the first free slot, and its waiting
      connections are served outside the hardware path, given a handle, room and grants. */
  lemma PlainArrives(l: Listener, ip: nat, j: nat)
    requires Inv(l.app) && ip != 0 && !l.isSta && 0 in l.nonNatIfs
    ensures var t := Handle(l, NonNatAdd(ip, Plain));
      && FirstReplaced(l.nonNatIfs, t.nonNatIfs, 0, ip) && t == l.(app := t.app, nonNatIfs := t.nonNatIfs)
      && (j < |l.app.temp| && Offered(l.app, l.app.temp[j], ip) && Ample(l.app, 0, ip) && NewKey(l.app, 0, j, ip, true) ==>
            |t.app.temp| == |l.app.temp| && t.app.temp[j] == ZERO_ENTRY && Served(t.app, Dummied(l.app.temp[j], true)))
  {
    RunOne(l.app, OpFlush(ip, true, true));
    ReplacesFirst(l.nonNatIfs, 0, ip);
    var i :| 0 <= i < |l.nonNatIfs| && l.nonNatIfs[i] == 0;
    assert FirstOf(l.nonNatIfs, 0, 0) < |l.nonNatIfs|;
    if j < |l.app.temp| && Offered(l.app, l.app.temp[j], ip) && Ample(l.app, 0, ip) && NewKey(l.app, 0, j, ip, true) {
      FlushServes(l.app, j, ip, true);
    }
  }

  /** A listed plain client leaves outside STA mode, with granted driver calls if there is a table:
      it is taken off the list once, nothing that mentions it waits, and rules under its own
      address leave the hardware. The rules entered for it outside the hardware path carry the
      WAN address instead, and stay in the hardware. */
  lemma PlainDeparts(l: Listener, ip: nat)
    requires Inv(l.app) && Orphans(l.app) == {} && ip != 0 && !l.isSta && ip in l.nonNatIfs
    requires l.app.hw.table ==>
      l.app.tbl != 0 && Granted(l.app.hw.fate, l.app.hw.calls, Run(l.app, DelRounds(ip, 1)).hw.calls)
    ensures var t := Handle(l, NonNatDel(ip));
      && FirstReplaced(l.nonNatIfs, t.nonNatIfs, ip, 0) && t == l.(app := t.app, nonNatIfs := t.nonNatIfs)
      && Gone(l.app, t.app, ip)
      && forall i | 0 <= i < |l.app.cache| && l.app.cache[i].key.privateIp == l.wanIp != ip && l.app.cache[i].enabled ::
           t.app.cache[i].enabled && t.app.cache[i].hdl in t.app.hw.rules && t.app.hw.rules[t.app.cache[i].hdl] == RuleOf(l.app.cache[i])
  {
    ReplacesFirst(l.nonNatIfs, ip, 0);
    assert FirstOf(l.nonNatIfs, ip, 0) < |l.nonNatIfs|;
    assert DelRounds(ip, 0) == [];
    assert DelRounds(ip, 1) == [OpFlush(ip, false, false), OpClntDiscon(ip)];
    OneRound(l.app, ip);
    hide Run;
  }

  /** In STA mode plain clients are not tracked. */
  lemma PlainIgnored(l: Listener, ip: nat, f: Iface)
    requires l.isSta
    ensures Handle(l, NonNatAdd(ip, f)) == l && Handle(l, NonNatDel(ip)) == l
  {
    RunNone(l.app);
  }

  // ------------------------------------------------------------------- other events

  /** A departing address that is not registered, and an arrival that is not on a NAT interface or
      finds the list full of others, change nothing. */
  lemma NothingToDo(l: Listener, ip: nat, f: Iface)
    ensures ip == 0 || ip !in l.natIfs ==> Handle(l, NeighDel(ip)) == l
    ensures !f.Natted? || ip == 0 || (ip !in l.natIfs && 0 !in l.natIfs) ==> Handle(l, NeighAdd(ip, f)) == l
  {
    RunNone(l.app);
    if ip != 0 && ip !in l.natIfs {
      NoCopies(l.natIfs, ip, 0);
      assert Zeroed(l.natIfs, ip) == l.natIfs;
    }
  }

  lemma {:induction false} NoCopies(a: seq<nat>, x: nat, i: nat)
    requires i <= |a| && x !in a
    ensures Copies(a, x, i) == 0
    decreases |a| - i
  {
    if i < |a| {
      NoCopies(a, x, i + 1);
    }
  }

  /** A power-save event puts the client on the list if it can, a recovery takes it off. */
  lemma PowerEvents(l: Listener, ip: nat)
    requires Inv(l.app) && Distinct(l.app.pwrSave) && ip != 0
    ensures Sleeping(Handle(l, PowerSave(ip)).app, ip) <==> ip in l.app.pwrSave || 0 in l.app.pwrSave
    ensures !Sleeping(Handle(l, PowerReset(ip)).app, ip)
  {
    PowerSaveLists(l.app, ip);
    RunOne(l.app, OpUpdatePwrSave(ip));
    RunOne(l.app, OpResetPwrSave(ip));
  }

  /** A client on a NAT interface takes the first free slot unless it is listed before it. */
  lemma NatListed(l: Listener, ip: nat)
    requires ip != 0 && (ip in l.natIfs || 0 in l.natIfs)
    ensures var t := Handle(l, NeighAdd(ip, Natted));
      && ip in t.natIfs && t == l.(app := t.app, natIfs := t.natIfs)
      && (t.natIfs == l.natIfs || (FirstReplaced(l.natIfs, t.natIfs, 0, ip) && ip !in l.natIfs[..FirstOf(l.natIfs, 0, 0)]))
  {
    hide Run;
    var c := FirstOfOrFree(l.natIfs, ip, 0);
    assert c < |l.natIfs| && l.natIfs[c := ip][c] == ip;
    if l.natIfs[c] == 0 {
      assert 0 !in l.natIfs[..c];
      assert FirstOf(l.natIfs, 0, 0) == c;
    } else {
      assert l.natIfs[c := ip] == l.natIfs;
    }
  }

  /** The fields of the listener that an event leaves alone. */
  lemma EventFrame(l: Listener, ev: Event)
    ensures var t := Handle(l, ev);
      && (ev.NeighAdd? || ev.NeighDel? || t.natIfs == l.natIfs)
      && (ev.NonNatAdd? || ev.NonNatDel? || t.nonNatIfs == l.nonNatIfs)
      && (ev.StaAdd? || ev.StaDel? || (t.staClnts == l.staClnts && t.staCnt == l.staCnt))
      && (ev.WanUp? || (t.isSta == l.isSta && t.wanIp == l.wanIp))
      && (ev.WanUp? || ev.WanDown? || t.wanUp == l.wanUp)
      && (ev.WanDown? ==> !t.wanUp)
      && (ev.WanUp? ==> (t.wanUp <==> l.wanUp || ev.ip != 0))
      && (ev.WanUp? && (l.wanUp || ev.ip == 0) ==> t == l)
  {
    if ev.WanUp? && (l.wanUp || ev.ip == 0) { RunNone(l.app); }
    hide Run;
  }
}
