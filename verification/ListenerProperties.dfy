/** Whole runs of listener events, and what a client's departure, its return, a closed
    connection and a pair of WAN events do to the NAT state. */
module ListenerProperties {
  import opened NatTypes
  import opened NatHardware
  import opened NatSpec
  import opened NatInvariants
  import opened NatProperties
  import opened NatTemp
  import opened NatCollision
  import opened NatFlush
  import opened ListenerSpec

  lemma {:induction false} RunConcat(s: State, a: seq<Op>, b: seq<Op>)
    ensures Run(s, a + b) == Run(Run(s, a), b)
    decreases |a|
  {
    if a == [] {
      assert a + b == b;
    } else {
      assert (a + b)[1..] == a[1..] + b;
      RunConcat(Apply(s, a[0]), a[1..], b);
    }
  }

  // ------------------------------------------------------------- every event run

  /** The NatApp operations of a whole event run. */
  function AllOps(l: Listener, evs: seq<Event>): seq<Op>
    decreases |evs|
  {
    if evs == [] then [] else Ops(l, evs[0]) + AllOps(Handle(l, evs[0]), evs[1..])
  }

  lemma {:induction false} EventsAreRuns(l: Listener, evs: seq<Event>)
    ensures HandleAll(l, evs).app == Run(l.app, AllOps(l, evs))
    decreases |evs|
  {
    if evs != [] {
      EventsAreRuns(Handle(l, evs[0]), evs[1..]);
      RunConcat(l.app, Ops(l, evs[0]), AllOps(Handle(l, evs[0]), evs[1..]));
    }
  }

  /** The listener deletes only TCP and UDP connections, never the zero key. */
  lemma {:induction false} RoundsDeleteNothing(ip: nat, n: nat)
    ensures forall i | 0 <= i < |DelRounds(ip, n)| :: !DelRounds(ip, n)[i].OpDeleteEntry?
  {
    if n > 0 {
      RoundsDeleteNothing(ip, n - 1);
    }
  }

  lemma {:induction false} EventsDeleteReal(l: Listener, evs: seq<Event>)
    ensures forall i | 0 <= i < |AllOps(l, evs)| :: AllOps(l, evs)[i].OpDeleteEntry? ==> AllOps(l, evs)[i].k.protocol in {TCP, UDP}
    decreases |evs|
  {
    if evs != [] {
      EventsDeleteReal(Handle(l, evs[0]), evs[1..]);
      if evs[0].NeighDel? {
        RoundsDeleteNothing(evs[0].ip, Copies(l.natIfs, evs[0].ip, 0));
      }
    }
  }

  lemma {:induction false} NoPhantoms(s: State, ops: seq<Op>)
    requires forall i | 0 <= i < |ops| :: ops[i].OpDeleteEntry? ==> ops[i].k != ZERO_KEY
    ensures Phantoms(s, ops) == 0
    decreases |ops|
  {
    if ops != [] {
      NoPhantoms(Apply(s, ops[0]), ops[1..]);
    }
  }

  /** Every run of events from a fresh listener, whatever the driver answers: the cache mirrors
      the hardware, keys are whole and unique, the count is exact, and stray hardware rules are
      exactly those whose deletion the driver refused. */
  lemma EventRunSafe(l: Listener, evs: seq<Event>)
    requires Fresh(l)
    ensures var s := HandleAll(l, evs).app;
      && Inv(s) && s.curCnt == Occupied(s.cache)
      && Orphans(s) == Leaked(l.app, AllOps(l, evs), {})
  {
    EventsAreRuns(l, evs);
    EventsDeleteReal(l, evs);
    NoPhantoms(l.app, AllOps(l, evs));
    RunSafe(l.app, AllOps(l, evs));
  }

  /** In every event run from a fresh listener whose deletions the driver grants, whatever else
      it refuses, every live hardware rule belongs to exactly one enabled slot. */
  lemma EventRunOwned(l: Listener, evs: seq<Event>)
    requires Fresh(l) && GrantedRun(l.app, AllOps(l, evs))
    ensures var s := HandleAll(l, evs).app;
      Orphans(s) == {} && |s.hw.rules| == EnabledCount(s.cache) && forall h | h in s.hw.rules :: OwnedOnce(s, h)
  {
    EventsAreRuns(l, evs);
    RunOwned(l.app, AllOps(l, evs));
  }

  // ----------------------------------------------------------- closed connections

  /** A message that takes the delete branch leaves its connection in neither list, after any
      event run whose dummy flushes start without a collision or leave nothing behind. */
  lemma CloseMessage(l: Listener, evs: seq<Event>, m: CtMsg)
    requires Fresh(l) && CleanRun(l.app, AllOps(l, evs))
    requires Judge(HandleAll(l, evs), m).Use?
    requires Closes(m, Judge(HandleAll(l, evs), m).rule.key.protocol)
    ensures var k := Judge(HandleAll(l, evs), m).rule.key;
      var s := Handle(HandleAll(l, evs), Conntrack(m)).app;
      !HasKey(s.cache, k) && !HasKey(s.temp, k)
  {
    hide Judge, DeleteEntry, DeleteTempEntry, AllOps, Init, Closes;
    var h := HandleAll(l, evs);
    var k := Judge(h, m).rule.key;
    ClosesReal(l, evs, m);
    EventsAreRuns(l, evs);
    CloseAfterRun(l.app, AllOps(l, evs), k);
    RunTwo(h.app, OpDeleteEntry(k), OpDeleteTemp(k));
  }

  lemma ClosesReal(l: Listener, evs: seq<Event>, m: CtMsg)
    requires Judge(HandleAll(l, evs), m).Use? && Closes(m, Judge(HandleAll(l, evs), m).rule.key.protocol)
    ensures var k := Judge(HandleAll(l, evs), m).rule.key;
      k != ZERO_KEY && Ops(HandleAll(l, evs), Conntrack(m)) == [OpDeleteEntry(k), OpDeleteTemp(k)]
  {
    hide Judge, HandleAll;
  }

  /** Two messages about the same connection. */
  ghost predicate SameTuple(m: CtMsg, n: CtMsg) { n == m.(kind := n.kind, tcp := n.tcp) }

  /** What opened a connection and what closes it name the same key: after both, with nothing in
      between, it is in neither list. */
  lemma OpenThenClose(l: Listener, m: CtMsg, n: CtMsg)
    requires Inv(l.app) && DistinctKeys(l.app.temp) && SameTuple(m, n) && Judge(l, m).Use?
    requires Closes(n, Judge(l, m).rule.key.protocol)
    ensures var k := Judge(l, m).rule.key;
      var s := Handle(Handle(l, Conntrack(m)), Conntrack(n)).app;
      !HasKey(s.cache, k) && !HasKey(s.temp, k)
  {
    var a := Handle(l, Conntrack(m));
    var k := Judge(l, m).rule.key;
    SameVerdict(l, m, n);
    CtStep(l, m);
    ClosesReal(a, [], n);
    RunTwo(a.app, OpDeleteEntry(k), OpDeleteTemp(k));
    hide Judge, DeleteEntry, DeleteTempEntry, Inv, CtOps, Closes, SameTuple;
    CloseConnection(a.app, k);
  }

  /** The verdict on a message does not depend on its kind or TCP state, nor on earlier messages. */
  lemma SameVerdict(l: Listener, m: CtMsg, n: CtMsg)
    requires SameTuple(m, n)
    ensures Judge(Handle(l, Conntrack(m)), n) == Judge(l, m)
  {
    hide Run, CtOps;
  }

  /** Conntrack messages keep the invariant and the uniqueness of waiting keys. */
  lemma CtStep(l: Listener, m: CtMsg)
    requires Inv(l.app) && DistinctKeys(l.app.temp)
    ensures Inv(Handle(l, Conntrack(m)).app) && DistinctKeys(Handle(l, Conntrack(m)).app.temp)
  {
    hide Judge;
    var ops := CtOps(l, m);
    RunExact(l.app, ops);
    if |ops| == 1 {
      RunOne(l.app, ops[0]);
      TempStep(l.app, ops[0]);
    } else if |ops| == 2 {
      RunTwo(l.app, ops[0], ops[1]);
      ApplyExact(l.app, ops[0]);
      TempStep(l.app, ops[0]);
      TempStep(Apply(l.app, ops[0]), ops[1]);
    }
  }

  // --------------------------------------------------- a client leaves and returns

  /** The NatApp state after a client has left: nothing of it waits or is in the hardware. */
  ghost predicate Gone(s: State, t: State, ip: nat) {
    && Inv(t) && Orphans(t) == {} && t.tbl == s.tbl && t.hw.table == s.hw.table && t.pubIp == s.pubIp && t.curCnt == s.curCnt
    && |t.cache| == |s.cache| && (forall i | 0 <= i < |s.cache| :: RuleOf(t.cache[i]) == RuleOf(s.cache[i]))
    && (forall i | 0 <= i < |s.cache| :: t.cache[i].enabled <==> s.cache[i].enabled && s.cache[i].key.privateIp != ip)
    && (forall h | h in t.hw.rules :: t.hw.rules[h].key.privateIp != ip)
    && (forall j | 0 <= j < |t.temp| :: !Mentions(t.temp[j], ip))
  }

  lemma {:induction false} DiscardKeepsCache(s: State, i: nat, ip: nat)
    requires i <= |s.temp|
    ensures FlushFrom(s, i, ip, false, false) == s.(temp := FlushFrom(s, i, ip, false, false).temp)
    decreases |s.temp| - i
  {
    if i < |s.temp| {
      DiscardKeepsCache(FlushSlot(s, i, ip, false, false), i + 1, ip);
    }
  }

  lemma {:induction false} CallsOnlyGrow(s: State, ops: seq<Op>)
    requires Inv(s)
    ensures Run(s, ops).hw.calls >= s.hw.calls && Run(s, ops).hw.fate == s.hw.fate
    decreases |ops|
  {
    if ops != [] {
      ApplyExact(s, ops[0]);
      CallsOnlyGrow(Apply(s, ops[0]), ops[1..]);
    }
  }

  lemma OneRound(s: State, ip: nat)
    requires Inv(s) && Orphans(s) == {} && ip != 0
    requires s.hw.table ==> s.tbl != 0 && Granted(s.hw.fate, s.hw.calls, Run(s, DelRounds(ip, 1)).hw.calls)
    ensures Gone(s, Run(s, DelRounds(ip, 1)), ip)
  {
    var u := FlushFrom(s, 0, ip, false, false);
    assert DelRounds(ip, 1) == [OpFlush(ip, false, false), OpClntDiscon(ip)];
    RunTwo(s, OpFlush(ip, false, false), OpClntDiscon(ip));
    DiscardKeepsCache(s, 0, ip);
    FlushKeeps(s, 0, ip, false, false);
    FlushForgets(s, ip, false);
    ClientLeaves(u, ip);
  }

  lemma GoneTwice(s: State, t: State, u: State, ip: nat)
    requires Gone(s, t, ip) && Gone(t, u, ip)
    ensures Gone(s, u, ip)
  {
    forall i | 0 <= i < |s.cache|
      ensures RuleOf(u.cache[i]) == RuleOf(s.cache[i])
      ensures u.cache[i].enabled <==> s.cache[i].enabled && s.cache[i].key.privateIp != ip
    {
      assert RuleOf(u.cache[i]) == RuleOf(t.cache[i]) && RuleOf(t.cache[i]) == RuleOf(s.cache[i]);
    }
  }

  lemma {:induction false} ManyRounds(s: State, ip: nat, n: nat)
    requires Inv(s) && Orphans(s) == {} && ip != 0 && n > 0
    requires s.hw.table ==> s.tbl != 0 && Granted(s.hw.fate, s.hw.calls, Run(s, DelRounds(ip, n)).hw.calls)
    ensures Gone(s, Run(s, DelRounds(ip, n)), ip)
    decreases n
  {
    var r := DelRounds(ip, 1);
    var t := Run(s, r);
    assert DelRounds(ip, 0) == [] && r == [OpFlush(ip, false, false), OpClntDiscon(ip)] + [];
    assert DelRounds(ip, n) == r + DelRounds(ip, n - 1);
    RunConcat(s, r, DelRounds(ip, n - 1));
    RunExact(s, r);
    CallsOnlyGrow(s, r);
    CallsOnlyGrow(t, DelRounds(ip, n - 1));
    OneRound(s, ip);
    if n > 1 {
      ManyRounds(t, ip, n - 1);
      GoneTwice(s, t, Run(t, DelRounds(ip, n - 1)), ip);
    }
  }

  lemma {:induction false} SomeCopy(a: seq<nat>, x: nat, i: nat)
    requires i <= |a| && exists j :: i <= j < |a| && a[j] == x
    ensures Copies(a, x, i) > 0
    decreases |a| - i
  {
    if a[i] != x {
      SomeCopy(a, x, i + 1);
    }
  }

  /** A registered client leaves, with granted driver calls if there is a table, and without a
      table always: no copy of its address stays registered, nothing of it waits, the hardware
      holds no rule of it, the other rules stay, and every cached connection is kept. */
  lemma ClientDeparts(l: Listener, ip: nat)
    requires Inv(l.app) && Orphans(l.app) == {} && ip != 0 && ip in l.natIfs
    requires l.app.hw.table ==> l.app.tbl != 0 && Granted(l.app.hw.fate, l.app.hw.calls, Handle(l, NeighDel(ip)).app.hw.calls)
    ensures var t := Handle(l, NeighDel(ip));
      && Gone(l.app, t.app, ip)
      && |t.natIfs| == |l.natIfs| && ip !in t.natIfs && 0 in t.natIfs
      && (forall i | 0 <= i < |l.natIfs| && l.natIfs[i] != ip :: t.natIfs[i] == l.natIfs[i])
  {
    SomeCopy(l.natIfs, ip, 0);
    ManyRounds(l.app, ip, Copies(l.natIfs, ip, 0));
    var i :| 0 <= i < |l.natIfs| && l.natIfs[i] == ip;
    assert Handle(l, NeighDel(ip)).natIfs[i] == 0;
  }

  /** What the arrival event does to the address list and to NatApp. */
  lemma ArrivalEvent(l: Listener, ip: nat)
    requires ip != 0 && (ip in l.natIfs || 0 in l.natIfs)
    ensures var t := Handle(l, NeighAdd(ip, Natted));
      ip in t.natIfs && t.app == FlushFrom(ResetPwrSaveIf(l.app, ip), 0, ip, true, false)
  {
    var j := FirstOfOrFree(l.natIfs, ip, 0);
    assert j < |l.natIfs|;
    assert l.natIfs[j := ip][j] == ip;
    RunTwo(l.app, OpResetPwrSave(ip), OpFlush(ip, true, false));
  }

  /** A client appears on a NAT interface: its address is registered, and if every cached
      connection of it that is not in the hardware gets its rule, all of them are live rules,
      whatever the driver answers to the flush that follows. */
  lemma ClientArrives(l: Listener, ip: nat)
    requires Inv(l.app) && ip != 0 && (ip in l.natIfs || 0 in l.natIfs) && Reinstalls(l.app, ip)
    ensures var t := Handle(l, NeighAdd(ip, Natted));
      && ip in t.natIfs && Inv(t.app) && |t.app.cache| == |l.app.cache|
      && forall i | 0 <= i < |l.app.cache| && l.app.cache[i].key.privateIp == ip :: Live(t.app, i, RuleOf(l.app.cache[i]))
  {
    ArrivalEvent(l, ip);
    var s := l.app;
    var u := ResetPwrSaveIf(s, ip);
    ReturnKeepsIff(s, ip);
    FlushKeeps(u, 0, ip, true, false);
    FlushKeepsRules(u, 0, ip, true, false);
    hide FlushFrom, ResetPwrSaveIf, Handle, Orphans, Debt, DistinctKeys, TableOk, Reinstalls;
    var t := FlushFrom(u, 0, ip, true, false);
    forall i | 0 <= i < |s.cache| && s.cache[i].key.privateIp == ip ensures Live(t, i, RuleOf(s.cache[i])) {
      assert u.cache[i].enabled && RuleOf(u.cache[i]) == RuleOf(s.cache[i]);
      assert t.cache[i] == u.cache[i];
    }
  }

  /** Slot `i` is enabled and its handle names the live rule `r`. */
  ghost predicate Live(s: State, i: nat, r: Rule)
    requires i < |s.cache|
  {
    s.cache[i].enabled && RuleOf(s.cache[i]) == r && s.cache[i].hdl in s.hw.rules && s.hw.rules[s.cache[i].hdl] == r
  }

  /** Without a table handle the arrival erases the client's waiting cached connections. */
  lemma ArrivalWithoutTable(l: Listener, ip: nat)
    requires Inv(l.app) && ip != 0 && (ip in l.natIfs || 0 in l.natIfs) && l.app.tbl == 0
    ensures var t := Handle(l, NeighAdd(ip, Natted));
      |t.app.cache| == |l.app.cache| && forall i | 0 <= i < |l.app.cache| ::
        t.app.cache[i] == if l.app.cache[i].key.privateIp == ip && !l.app.cache[i].enabled then ZERO_ENTRY else l.app.cache[i]
  {
    ArrivalEvent(l, ip);
    ClientReturns(l.app, ip);
    FlushStuckCache(ResetPwrSaveIf(l.app, ip), 0, ip, true, false);
  }

  /** No waiting connection has a cached key of `ip`. */
  ghost predicate NoWaitingCopy(s: State, ip: nat) {
    forall i, j | 0 <= i < |s.cache| && 0 <= j < |s.temp| && s.cache[i].key.privateIp == ip :: s.temp[j].key != s.cache[i].key
  }

  /** An arriving client keeps all its cached connections if and only if each of them that is not
      in the hardware gets its rule, for every driver answer. A waiting copy of an erased
      connection would enter the cache in its place. */
  lemma ArrivalKeepsIff(l: Listener, ip: nat)
    requires Inv(l.app) && ip != 0 && (ip in l.natIfs || 0 in l.natIfs) && NoWaitingCopy(l.app, ip)
    ensures var c, t := l.app.cache, Handle(l, NeighAdd(ip, Natted)).app.cache;
      (forall i | 0 <= i < |c| && c[i].key.privateIp == ip :: HasKey(t, c[i].key)) <==> Reinstalls(l.app, ip)
  {
    var s := l.app;
    if Reinstalls(s, ip) {
      ClientArrives(l, ip);
    } else {
      ArrivalEvent(l, ip);
      ReturnKeepsIff(s, ip);
      var u := ResetPwrSaveIf(s, ip);
      var i :| 0 <= i < |s.cache| && s.cache[i].key.privateIp == ip && u.cache[i] == ZERO_ENTRY;
      ErasedKey(s, u, i);
      SweepTemp(s.(pwrSave := ReplaceFirst(s.pwrSave, ip, 0)), 0, Wake(ip));
      FlushNewKeys(u, 0, ip, s.cache[i].key);
    }
  }

  lemma ErasedKey(s: State, u: State, i: nat)
    requires Inv(s) && |u.cache| == |s.cache| && i < |s.cache| && s.cache[i].key != ZERO_KEY && u.cache[i] == ZERO_ENTRY
    requires forall j | 0 <= j < |s.cache| :: u.cache[j].key == s.cache[j].key || u.cache[j] == ZERO_ENTRY
    ensures !HasKey(u.cache, s.cache[i].key)
  {
  }

  lemma FlushSlotNewKeys(s: State, i: nat, ip: nat, k: Key)
    requires i < |s.temp| && s.temp[i].key != k && k != ZERO_KEY && !HasKey(s.cache, k)
    ensures var t := FlushSlot(s, i, ip, true, false);
      !HasKey(t.cache, k) && |t.temp| == |s.temp| && t.temp == s.temp[i := t.temp[i]]
  {
  }

  lemma {:induction false} FlushNewKeys(s: State, i: nat, ip: nat, k: Key)
    requires i <= |s.temp| && k != ZERO_KEY && !HasKey(s.cache, k) && forall j | i <= j < |s.temp| :: s.temp[j].key != k
    ensures !HasKey(FlushFrom(s, i, ip, true, false).cache, k)
    decreases |s.temp| - i
  {
    if i < |s.temp| {
      FlushSlotNewKeys(s, i, ip, k);
      FlushNewKeys(FlushSlot(s, i, ip, true, false), i + 1, ip, k);
    }
  }

  lemma {:induction false} FlushStuckCache(s: State, i: nat, ip: nat, isAdd: bool, isDummy: bool)
    requires i <= |s.temp| && s.tbl == 0
    ensures FlushFrom(s, i, ip, isAdd, isDummy).cache == s.cache
    decreases |s.temp| - i
  {
    if i < |s.temp| {
      FlushStuckCache(FlushSlot(s, i, ip, isAdd, isDummy), i + 1, ip, isAdd, isDummy);
    }
  }

  /** A client appears while connections of it wait: with a handle, room and granted calls after
      the cached ones got their rules, every waiting connection with the current public address and
      a new key is served, and none of them waits any longer. */
  lemma ArrivalServes(l: Listener, ip: nat, j: nat)
    requires Inv(l.app) && ip != 0 && (ip in l.natIfs || 0 in l.natIfs) && j < |ResetPwrSaveIf(l.app, ip).temp|
    requires var u := ResetPwrSaveIf(l.app, ip); Offered(u, u.temp[j], ip) && Ample(u, 0, ip) && NewKey(u, 0, j, ip, false)
    ensures ResetPwrSaveIf(l.app, ip).temp == l.app.temp
    ensures var t := Handle(l, NeighAdd(ip, Natted)).app;
      |t.temp| == |l.app.temp| && t.temp[j] == ZERO_ENTRY && Served(t, l.app.temp[j])
  {
    ArrivalEvent(l, ip);
    ReturnKeepsIff(l.app, ip);
    SweepTemp(l.app.(pwrSave := ReplaceFirst(l.app.pwrSave, ip, 0)), 0, Wake(ip));
    FlushServes(ResetPwrSaveIf(l.app, ip), j, ip, false);
  }

  /** Departure followed by return: every connection cached for the client is a live rule. */
  lemma ClientRoundTrip(l: Listener, ip: nat)
    requires Inv(l.app) && Orphans(l.app) == {} && ip != 0 && ip in l.natIfs
    requires l.app.hw.table ==> l.app.tbl != 0 && Granted(l.app.hw.fate, l.app.hw.calls, Handle(l, NeighDel(ip)).app.hw.calls)
    requires Reinstalls(Handle(l, NeighDel(ip)).app, ip)
    ensures var t := Handle(Handle(l, NeighDel(ip)), NeighAdd(ip, Natted)).app;
      |t.cache| == |l.app.cache| && forall i | 0 <= i < |t.cache| && l.app.cache[i].key.privateIp == ip ::
        Live(t, i, RuleOf(l.app.cache[i]))
  {
    var d := Handle(l, NeighDel(ip));
    ClientDeparts(l, ip);
    ClientArrives(d, ip);
    assert forall i | 0 <= i < |l.app.cache| :: RuleOf(d.app.cache[i]) == RuleOf(l.app.cache[i]);
  }

  // ------------------------------------------------------------- WAN down, WAN up

  /** The WAN-down event names the table's address. */
  ghost predicate Matches(l: Listener, down: nat) { l.wanUp && l.app.tbl != 0 && l.app.pubIp == down }

  /** The WAN-down event drops the table. */
  ghost predicate Drops(l: Listener, down: nat) { Matches(l, down) && l.app.hw.fate(l.app.hw.calls).ok }

  /** The number of the driver call that is made after the WAN-down event. */
  ghost function CallAfterDown(l: Listener, down: nat): nat { l.app.hw.calls + if Matches(l, down) then 1 else 0 }

  lemma DownEvent(l: Listener, down: nat)
    requires Inv(l.app)
    ensures var a := Handle(l, WanDown(down));
      && Inv(a.app) && !a.wanUp && a.app.hw.fate == l.app.hw.fate && a.app.hw.calls == CallAfterDown(l, down)
      && (a.app.hw.table <==> l.app.hw.table && !Drops(l, down))
      && a.app.tbl == (if Drops(l, down) then 0 else l.app.tbl)
      && (a.app.hw.table ==> a.app.hw.rules == l.app.hw.rules)
  {
    if l.wanUp {
      RunOne(l.app, OpDeleteTable(down));
      DeleteTableExact(l.app, down);
    } else {
      RunNone(l.app);
    }
  }

  /** WAN down and up again, with any addresses and any driver answers. A WAN-up event with an
      address leaves a usable table if and only if there was none or the WAN-down event dropped
      it, and the creation is granted; it loses a table if and only if there was one that the
      WAN-down event did not drop. */
  lemma WanCycle(l: Listener, down: nat, up: nat, sta: bool)
    requires Inv(l.app)
    ensures var t := Handle(Handle(l, WanDown(down)), WanUp(up, sta)).app;
      && Inv(t)
      && (t.tbl != 0 <==>
            if up == 0 then l.app.tbl != 0 && !Drops(l, down)
            else (!l.app.hw.table || Drops(l, down)) && l.app.hw.fate(CallAfterDown(l, down)).ok)
      && (up != 0 ==> (TableLost(t) <==> l.app.hw.table && !Drops(l, down)))
  {
    var a := Handle(l, WanDown(down));
    DownEvent(l, down);
    if up == 0 {
      RunNone(a.app);
    } else {
      RunOne(a.app, OpAddTable(up));
      AddTableKeeps(a.app, up);
      LosesTableIff(a.app, up);
    }
  }

  /** A table that survives the WAN-down event, because the address does not match or because the
      driver refuses, is lost by the WAN-up event: no later event changes what the hardware holds. */
  lemma WanMismatch(l: Listener, down: nat, up: nat, sta: bool, evs: seq<Event>)
    requires Inv(l.app) && l.app.hw.table && !Drops(l, down) && up != 0
    ensures var t := HandleAll(Handle(Handle(l, WanDown(down)), WanUp(up, sta)), evs).app;
      TableLost(t) && t.hw.rules == l.app.hw.rules
  {
    var a := Handle(l, WanDown(down));
    DownEvent(l, down);
    var b := Handle(a, WanUp(up, sta));
    RunOne(a.app, OpAddTable(up));
    EventsAreRuns(b, evs);
    LosesTableIff(a.app, up);
    AddTableKeeps(a.app, up);
    LostForever(b.app, AllOps(b, evs));
  }

  // ------------------------------------------------------------------- WAN bounce

  /** No WAN-up event of the run creates a table. */
  ghost predicate NoGrantedUp(l: Listener, evs: seq<Event>)
    decreases |evs|
  {
    evs == [] ||
      (&& (evs[0].WanUp? && !l.wanUp && evs[0].ip != 0 ==> !Creates(l.app, OpAddTable(evs[0].ip)))
       && NoGrantedUp(Handle(l, evs[0]), evs[1..]))
  }

  lemma {:induction false} NoCreationConcat(s: State, a: seq<Op>, b: seq<Op>)
    requires NoCreation(s, a) && NoCreation(Run(s, a), b)
    ensures NoCreation(s, a + b)
    decreases |a|
  {
    if a == [] {
      assert a + b == b;
    } else {
      assert (a + b)[1..] == a[1..] + b;
      NoCreationConcat(Apply(s, a[0]), a[1..], b);
    }
  }

  lemma {:induction false} NeverCreates(s: State, ops: seq<Op>)
    requires forall i | 0 <= i < |ops| :: !ops[i].OpAddTable?
    ensures NoCreation(s, ops)
    decreases |ops|
  {
    if ops != [] {
      NeverCreates(Apply(s, ops[0]), ops[1..]);
    }
  }

  lemma {:induction false} RoundsCreateNothing(ip: nat, n: nat)
    ensures forall i | 0 <= i < |DelRounds(ip, n)| :: !DelRounds(ip, n)[i].OpAddTable?
  {
    if n > 0 {
      RoundsCreateNothing(ip, n - 1);
    }
  }

  lemma EventCreates(l: Listener, ev: Event)
    requires ev.WanUp? && !l.wanUp && ev.ip != 0 ==> !Creates(l.app, OpAddTable(ev.ip))
    ensures NoCreation(l.app, Ops(l, ev))
  {
    if ev.WanUp? && !l.wanUp && ev.ip != 0 {
      assert Ops(l, ev)[1..] == [];
    } else {
      if ev.NeighDel? { RoundsCreateNothing(ev.ip, Copies(l.natIfs, ev.ip, 0)); }
      NeverCreates(l.app, Ops(l, ev));
    }
  }

  lemma {:induction false} EventsCreateNothing(l: Listener, evs: seq<Event>)
    requires NoGrantedUp(l, evs)
    ensures NoCreation(l.app, AllOps(l, evs))
    decreases |evs|
  {
    if evs != [] {
      var n := Handle(l, evs[0]);
      EventCreates(l, evs[0]);
      EventsCreateNothing(n, evs[1..]);
      NoCreationConcat(l.app, Ops(l, evs[0]), AllOps(n, evs[1..]));
    }
  }

  /** A WAN-down event that drops the table for `ip`, any events of which no WAN-up creates a
      table, and a WAN-up event for `ip` while the WAN counts as down: the cache is restored as
      in WanBounce. While the WAN counts as up the event does nothing. */
  lemma EventBounce(l: Listener, ip: nat, evs: seq<Event>, sta: bool)
    requires Inv(l.app) && ip != 0 && Drops(l, ip) && NoGrantedUp(Handle(l, WanDown(ip)), evs)
    ensures var d := HandleAll(Handle(l, WanDown(ip)), evs);
      var t := Handle(d, WanUp(ip, sta));
      if d.wanUp then t == d else t.wanUp && t.app == AddTable(d.app, ip).s && Bounced(d.app, AddTable(d.app, ip))
  {
    var a := Handle(l, WanDown(ip));
    RunOne(l.app, OpDeleteTable(ip));
    EventsAreRuns(a, evs);
    EventsCreateNothing(a, evs);
    var d := HandleAll(a, evs);
    if d.wanUp {
      RunNone(d.app);
    } else {
      RunOne(d.app, OpAddTable(ip));
      WanBounce(l.app, ip, AllOps(a, evs));
    }
  }
}
