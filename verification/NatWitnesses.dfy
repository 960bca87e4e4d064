/** Runs from a fresh NatApp or listener that reach the states in which the code misses a
    property: a rule nobody owns, a sleeping client woken by a restore, a connection lost by an
    arrival, and a lost table. */
module NatWitnesses {
  import opened NatTypes
  import opened NatHardware
  import opened NatSpec
  import opened NatInvariants
  import opened NatProperties
  import opened ListenerSpec
  import opened ListenerProperties

  const CONN := Entry(Key(2, 10, 9, 80, TCP), 7, 500, 0, false, false, 0)

  lemma FreshTable(s: State, ip: nat)
    requires Init(s) && ip != s.pubIpPre && s.hw.fate(s.hw.calls).ok
    ensures var t := AddTable(s, ip).s;
      && Inv(t) && t == s.(hw := t.hw, tbl := 1, pubIp := ip)
      && t.hw == s.hw.(table := true, rules := map[], calls := s.hw.calls + 1)
  {
    InitInv(s);
    AddTableKeeps(s, ip);
  }

  /** A granted table, a granted connection, and a refused deletion leave a rule nobody owns. */
  lemma OrphanReached(s: State)
    requires Init(s) && |s.cache| > 0 && s.algPorts == [] && s.pubIpPre != 7
    requires s.hw.fate(s.hw.calls).ok && s.hw.fate(s.hw.calls + 1).ok && !s.hw.fate(s.hw.calls + 2).ok
    ensures Orphans(Run(Run(s, [OpAddTable(7), OpAddEntry(CONN)]), [OpDeleteEntry(CONN.key)])) != {}
  {
    FreshTable(s, 7);
    var s1 := AddTable(s, 7).s;
    assert s1.cache[0].key == ZERO_KEY;
    var i := AddEntryAccepts(s1, CONN);
    AddEntryKeeps(s1, CONN);
    var s2 := AddEntry(s1, CONN).s;
    RunTwo(s, OpAddTable(7), OpAddEntry(CONN));
    RunOne(s2, OpDeleteEntry(CONN.key));
    assert s2.cache[i].enabled && s2.cache[i].key == CONN.key;
    LeaksIff(s2, CONN.key);
    DeleteEntryExact(s2, CONN.key);
  }

  /** A table for address 7 came and went, then a connection of client 2 was cached. */
  lemma CachedWhileDown(s: State) returns (i: nat)
    requires Init(s) && |s.cache| > 0 && s.pubIpPre != 7
    requires s.hw.fate(s.hw.calls).ok && s.hw.fate(s.hw.calls + 1).ok
    ensures var t := CacheEntry(DeleteTable(AddTable(s, 7).s, 7).s, CONN);
      && Inv(t) && !t.hw.table && t.pubIpPre == 7 && t.pwrSave == s.pwrSave && t.hw.fate == s.hw.fate
      && i < |t.cache| && t.cache[i].key == CONN.key
  {
    FreshTable(s, 7);
    var s1 := AddTable(s, 7).s;
    DeleteTableExact(s1, 7);
    var s2 := DeleteTable(s1, 7).s;
    assert s2.cache[0].key == ZERO_KEY;
    assert forall j | 0 <= j < |s2.cache| :: s2.cache[j].key == ZERO_KEY;
    i := CacheEntryAccepts(s2, CONN);
    CacheEntryKeeps(s2, CONN);
    var t := CacheEntry(s2, CONN);
    assert HasKey(t.cache, CONN.key) && !HasKey(s2.cache, CONN.key);
  }

  /** Client 2 goes to sleep while the table is gone; the restoring creation puts its rule into
      the hardware although it sleeps. */
  lemma RestoreReached(s: State)
    requires Init(s) && |s.cache| > 0 && s.pubIpPre != 7 && forall k: nat :: s.hw.fate(k).ok
    ensures var t := Run(Run(s, [OpAddTable(7), OpDeleteTable(7)]), [OpCacheEntry(CONN), OpUpdatePwrSave(2)]);
      Asleep(t) && !Asleep(Run(t, [OpAddTable(7)]))
  {
    var i := CachedWhileDown(s);
    var s2 := DeleteTable(AddTable(s, 7).s, 7).s;
    var s3 := CacheEntry(s2, CONN);
    var t := UpdatePwrSaveIf(s3, 2).s;
    RunTwo(s, OpAddTable(7), OpDeleteTable(7));
    RunTwo(s2, OpCacheEntry(CONN), OpUpdatePwrSave(2));
    RunOne(t, OpAddTable(7));
    SleepWhileDown(s3, i);
    hide Run, AddTable, DeleteTable, CacheEntry, UpdatePwrSaveIf, Inv, Asleep;
    SleeperRestored(t, i);
  }

  lemma SleeperRestored(t: State, i: nat)
    requires Inv(t) && Asleep(t) && !t.hw.table && t.pubIpPre == 7 && forall k: nat :: t.hw.fate(k).ok
    requires i < |t.cache| && t.cache[i].key == CONN.key && Sleeping(t, 2)
    ensures !Asleep(AddTable(t, 7).s)
  {
    assert Sleeping(t, t.cache[i].key.privateIp);
    RestoreWakes(t, 7);
    hide AddTable, Asleep, Inv;
  }

  lemma SleepWhileDown(s: State, i: nat)
    requires Inv(s) && !s.hw.table && i < |s.cache| && s.cache[i].key == CONN.key
    requires forall j | 0 <= j < |s.pwrSave| :: s.pwrSave[j] == 0
    ensures var t := UpdatePwrSaveIf(s, 2).s;
      && Inv(t) && Asleep(t) && !t.hw.table && t.pubIpPre == s.pubIpPre && t.hw.fate == s.hw.fate && Sleeping(t, 2)
      && |t.cache| == |s.cache| && t.cache[i].key == CONN.key
  {
    var s1 := s.(pwrSave := ReplaceFirst(s.pwrSave, 0, 2));
    Listed(s.pwrSave, 2);
    assert s.pwrSave[0] == 0;
    PowerSaveLists(s, 2);
    SweepSlots(s1, 0, Sleep(2));
    SweepKeeps(s1, 0, Sleep(2));
    var t := UpdatePwrSaveIf(s, 2).s;
    assert SlotAfter(s1.cache[i], t.cache[i], Sleep(2));
  }

  // ------------------------------------------------------------------- listener runs

  /** Any connection opened while the WAN is down for the first time is cached, and the arrival of
      its client erases it. */
  lemma ArrivalLoses(l: Listener, m: CtMsg)
    requires Fresh(l) && |l.app.cache| > 0
    requires Judge(l, m).Use? && FullKey(Judge(l, m).rule.key) && Opens(m, Judge(l, m).rule.key.protocol)
    ensures var k := Judge(l, m).rule.key;
      var a := Handle(l, Conntrack(m));
      HasKey(a.app.cache, k) && !HasKey(Handle(a, NeighAdd(k.privateIp, Natted)).app.cache, k)
  {
    hide Judge;
    var e := Judge(l, m).rule;
    var a := Handle(l, Conntrack(m));
    RunOne(l.app, OpCacheEntry(e));
    InitInv(l.app);
    assert l.app.cache[0].key == ZERO_KEY;
    var i := CacheEntryAccepts(l.app, e);
    CacheEntryKeeps(l.app, e);
    assert l.natIfs[0] == 0;
    assert forall j | 0 <= j < |a.app.cache| :: !a.app.cache[j].enabled;
    ArrivalWithoutTable(a, e.key.privateIp);
  }

  /** An established TCP connection of client 2, whose address is private. */
  const OPENING := CtMsg(TCP, TCP, false, true, New, Established, 2, 10, 9, 80, 9, 80, 500, false, 0, x => x == 2)

  lemma ArrivalReached(l: Listener)
    requires Fresh(l) && |l.app.cache| > 0 && l.wanIp == 0
    ensures var a := Handle(l, Conntrack(OPENING));
      HasKey(a.app.cache, CONN.key) && !HasKey(Handle(a, NeighAdd(2, Natted)).app.cache, CONN.key)
  {
    assert Judge(l, OPENING).rule.key == CONN.key;
    ArrivalLoses(l, OPENING);
  }

  /** The first WAN-up event is granted; a WAN-down event for another address and a second WAN-up
      event freeze the hardware for every later run. */
  lemma MismatchReached(l: Listener, evs: seq<Event>)
    requires Fresh(l) && l.app.pubIpPre != 7 && l.app.hw.fate(l.app.hw.calls).ok
    ensures var a := Handle(l, WanUp(7, false));
      var t := HandleAll(Handle(Handle(a, WanDown(8)), WanUp(7, false)), evs).app;
      a.app.tbl != 0 && TableLost(t)
  {
    var a := Handle(l, WanUp(7, false));
    RunOne(l.app, OpAddTable(7));
    FreshTable(l.app, 7);
    WanMismatch(a, 8, 7, false, evs);
  }
}
