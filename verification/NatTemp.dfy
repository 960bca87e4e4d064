/** The temporary list: what a flush does to each entry, and when deleting the first
    match removes a connection for good. */
module NatTemp {
  import opened NatTypes
  import opened NatHardware
  import opened NatSpec
  import opened NatInvariants
  import opened NatCollision

  // --------------------------------------------------------------------- flush

  /** The fate of one temp entry under a flush that ends in cache `c`. */
  ghost predicate Flushed(a: Entry, b: Entry, c: seq<Entry>, pubIp: nat, ip: nat, isAdd: bool, isDummy: bool) {
    if !Mentions(a, ip) then b == a
    else if !isAdd || a.publicIp != pubIp then b == ZERO_ENTRY
    else
      var e := Dummied(a, isDummy);
      b == e || (b == ZERO_ENTRY && (FullKey(e.key) ==> HasKey(c, e.key)))
  }

  ghost predicate KeysGrow(c: seq<Entry>, d: seq<Entry>) {
    forall i | 0 <= i < |c| && c[i].key != ZERO_KEY :: i < |d| && d[i].key == c[i].key
  }

  lemma AddEntryStores(s: State, e: Entry)
    requires Inv(s)
    ensures var o := AddEntry(s, e);
      && KeysGrow(s.cache, o.s.cache) && o.s.temp == s.temp && o.s.pubIp == s.pubIp
      && (o.ret == 0 && FullKey(e.key) ==> HasKey(o.s.cache, e.key))
  {
    var c := FirstKey(s.cache, ZERO_KEY, 0);
    var o := AddEntry(s, e);
    if o.ret == 0 && FullKey(e.key) {
      assert o.s.cache[c].key == e.key;
    }
  }

  lemma FlushSlotOutcome(s: State, i: nat, ip: nat, isAdd: bool, isDummy: bool)
    requires Inv(s) && i < |s.temp|
    ensures var t := FlushSlot(s, i, ip, isAdd, isDummy);
      && |t.temp| == |s.temp| && t.temp == s.temp[i := t.temp[i]] && t.pubIp == s.pubIp && KeysGrow(s.cache, t.cache)
      && Flushed(s.temp[i], t.temp[i], t.cache, s.pubIp, ip, isAdd, isDummy)
  {
    if Mentions(s.temp[i], ip) && isAdd && s.temp[i].publicIp == s.pubIp {
      var e := Dummied(s.temp[i], isDummy);
      AddEntryStores(s.(temp := s.temp[i := e]), e);
    }
  }

  lemma FlushedGrows(a: Entry, b: Entry, c: seq<Entry>, d: seq<Entry>, pubIp: nat, ip: nat, isAdd: bool, isDummy: bool)
    requires Flushed(a, b, c, pubIp, ip, isAdd, isDummy) && KeysGrow(c, d)
    ensures Flushed(a, b, d, pubIp, ip, isAdd, isDummy)
  {
    var k := Dummied(a, isDummy).key;
    if HasKey(c, k) && k != ZERO_KEY {
      var i :| 0 <= i < |c| && c[i].key == k;
      assert d[i].key == k;
    }
  }

  /** A flush decides every temp entry by itself: untouched, dropped for a stale public address
      or on request, or offered to the cache, and then it is in the cache or still waiting. */
  lemma {:induction false} FlushOutcome(s: State, i: nat, ip: nat, isAdd: bool, isDummy: bool)
    requires Inv(s) && i <= |s.temp|
    ensures var t := FlushFrom(s, i, ip, isAdd, isDummy);
      && |t.temp| == |s.temp| && t.pubIp == s.pubIp && KeysGrow(s.cache, t.cache)
      && (forall j | 0 <= j < i :: t.temp[j] == s.temp[j])
      && (forall j | i <= j < |s.temp| :: Flushed(s.temp[j], t.temp[j], t.cache, s.pubIp, ip, isAdd, isDummy))
    decreases |s.temp| - i
  {
    if i < |s.temp| {
      var u := FlushSlot(s, i, ip, isAdd, isDummy);
      FlushSlotKeeps(s, i, ip, isAdd, isDummy);
      FlushSlotOutcome(s, i, ip, isAdd, isDummy);
      FlushOutcome(u, i + 1, ip, isAdd, isDummy);
      var t := FlushFrom(u, i + 1, ip, isAdd, isDummy);
      FlushedGrows(s.temp[i], t.temp[i], u.cache, t.cache, s.pubIp, ip, isAdd, isDummy);
    }
  }

  /** Nothing that can become a rule is lost by an adding flush. */
  lemma FlushLosesNothing(s: State, ip: nat, isDummy: bool, j: nat)
    requires Inv(s) && j < |s.temp| && Mentions(s.temp[j], ip) && s.temp[j].publicIp == s.pubIp
    requires FullKey(Dummied(s.temp[j], isDummy).key)
    ensures var t := FlushFrom(s, 0, ip, true, isDummy);
      HasKey(t.cache, Dummied(s.temp[j], isDummy).key) || t.temp[j] == Dummied(s.temp[j], isDummy)
  {
    FlushOutcome(s, 0, ip, true, isDummy);
    assert Flushed(s.temp[j], FlushFrom(s, 0, ip, true, isDummy).temp[j], FlushFrom(s, 0, ip, true, isDummy).cache,
                   s.pubIp, ip, true, isDummy);
  }

  /** A discarding flush leaves no mention of the address, except that every empty slot
      mentions address zero. */
  lemma FlushForgets(s: State, ip: nat, isDummy: bool)
    requires Inv(s)
    ensures var t := FlushFrom(s, 0, ip, false, isDummy);
      (forall j | 0 <= j < |t.temp| :: !Mentions(t.temp[j], ip))
        <==> (ip != 0 || forall j | 0 <= j < |s.temp| :: !Mentions(s.temp[j], ip))
  {
    FlushOutcome(s, 0, ip, false, isDummy);
    var t := FlushFrom(s, 0, ip, false, isDummy);
    forall j | 0 <= j < |s.temp|
      ensures t.temp[j] == if Mentions(s.temp[j], ip) then ZERO_ENTRY else s.temp[j]
    {
      assert Flushed(s.temp[j], t.temp[j], t.cache, s.pubIp, ip, false, isDummy);
    }
  }

  /** Some temp slot has no addresses. */
  ghost predicate HasBlank(t: seq<Entry>) { exists i :: 0 <= i < |t| && t[i].key.privateIp == 0 && t[i].key.targetIp == 0 }

  /** Exactly when a connection waits after it was offered to the temp list. */
  lemma AddTempAccepts(s: State, e: Entry)
    requires FullKey(e.key)
    ensures var t := AddTempEntry(s, e);
      var enters := !UsesAlgPort(s, e.key) && !HasKey(s.cache, e.key) && HasBlank(s.temp);
      && t == s.(temp := t.temp) && |t.temp| == |s.temp|
      && (HasKey(t.temp, e.key) <==> HasKey(s.temp, e.key) || enters)
      && (t != s ==> e in t.temp && forall i | 0 <= i < |s.temp| && s.temp[i].key.privateIp != 0 :: t.temp[i] == s.temp[i])
  {
    var c := FirstBlank(s.temp, 0);
    var t := AddTempEntry(s, e);
    if c < |s.temp| && !UsesAlgPort(s, e.key) && !HasKey(s.cache, e.key) && !HasKey(s.temp, e.key) {
      assert t.temp[c] == e;
    }
  }

  // ------------------------------------------------------------ deleting for good

  /** The dummy flush `op` leaves no rewritten entry behind. */
  ghost predicate Settled(s: State, op: Op) {
    op.OpFlush? && op.isAdd && op.isDummy ==>
      forall j | 0 <= j < |s.temp| && Mentions(s.temp[j], op.ip) && s.temp[j].publicIp == s.pubIp ::
        j < |Apply(s, op).temp| && Apply(s, op).temp[j] == ZERO_ENTRY
  }

  /** What a caller can look at before the call. */
  ghost predicate Careful(s: State, op: Op) { op.OpFlush? && op.isAdd && op.isDummy ==> NoCollision(s, op.ip) }

  /** `op` is not a dummy flush, or it does not collide, or it leaves nothing behind. */
  ghost predicate Clean(s: State, op: Op) { Careful(s, op) || Settled(s, op) }

  ghost predicate CleanRun(s: State, ops: seq<Op>)
    decreases |ops|
  {
    ops == [] || (Clean(s, ops[0]) && CleanRun(Apply(s, ops[0]), ops[1..]))
  }

  lemma {:induction false} SweepTemp(s: State, i: nat, w: Sweep)
    requires i <= |s.cache|
    ensures SweepFrom(s, i, w).temp == s.temp
    decreases |s.cache| - i
  {
    if i < |s.cache| {
      SweepTemp(Touch(s, i, w), i + 1, w);
    }
  }

  lemma TempStep(s: State, op: Op)
    requires Inv(s) && DistinctKeys(s.temp) && Clean(s, op)
    ensures DistinctKeys(Apply(s, op).temp)
  {
    hide SweepFrom, FlushFrom, FirstKey;
    match op
    case OpAddTable(ip) =>
      var r := CreateTable(s.hw);
      SweepTemp(s.(hw := r.hw, tbl := r.hdl), 0, Restore);
    case OpUpdatePwrSave(ip) => SweepTemp(s.(pwrSave := ReplaceFirst(s.pwrSave, 0, ip)), 0, Sleep(ip));
    case OpResetPwrSave(ip) => SweepTemp(s.(pwrSave := ReplaceFirst(s.pwrSave, ip, 0)), 0, Wake(ip));
    case OpClntDiscon(ip) => SweepTemp(s.(pwrSave := ReplaceFirst(s.pwrSave, ip, 0)), 0, Leave(ip));
    case OpStaDiscon(ip) => SweepTemp(s, 0, StaLeave(ip));
    case OpFlush(ip, isAdd, isDummy) => FlushDistinct(s, ip, isAdd, isDummy);
    case _ =>
  }

  lemma FlushDistinct(s: State, ip: nat, isAdd: bool, isDummy: bool)
    requires Inv(s) && DistinctKeys(s.temp) && Clean(s, OpFlush(ip, isAdd, isDummy))
    ensures DistinctKeys(FlushFrom(s, 0, ip, isAdd, isDummy).temp)
  {
    if isAdd && isDummy && NoCollision(s, ip) {
      CarefulFlush(s, ip);
    } else {
      SettledFlush(s, ip, isAdd, isDummy);
    }
  }

  lemma SettledFlush(s: State, ip: nat, isAdd: bool, isDummy: bool)
    requires Inv(s) && DistinctKeys(s.temp) && Settled(s, OpFlush(ip, isAdd, isDummy))
    ensures DistinctKeys(FlushFrom(s, 0, ip, isAdd, isDummy).temp)
  {
    FlushOutcome(s, 0, ip, isAdd, isDummy);
    var t := FlushFrom(s, 0, ip, isAdd, isDummy);
    assert t == Apply(s, OpFlush(ip, isAdd, isDummy));
    forall j | 0 <= j < |s.temp| ensures t.temp[j] == s.temp[j] || t.temp[j] == ZERO_ENTRY {
      assert Flushed(s.temp[j], t.temp[j], t.cache, s.pubIp, ip, isAdd, isDummy);
    }
  }

  lemma {:induction false} TempRun(s: State, ops: seq<Op>)
    requires Inv(s) && DistinctKeys(s.temp) && CleanRun(s, ops)
    ensures DistinctKeys(Run(s, ops).temp)
    decreases |ops|
  {
    if ops != [] {
      TempStep(s, ops[0]);
      ApplyExact(s, ops[0]);
      TempRun(Apply(s, ops[0]), ops[1..]);
    }
  }

  ghost predicate CarefulRun(s: State, ops: seq<Op>)
    decreases |ops|
  {
    ops == [] || (Careful(s, ops[0]) && CarefulRun(Apply(s, ops[0]), ops[1..]))
  }

  lemma {:induction false} CarefulIsClean(s: State, ops: seq<Op>)
    requires CarefulRun(s, ops)
    ensures CleanRun(s, ops)
    decreases |ops|
  {
    if ops != [] {
      CarefulIsClean(Apply(s, ops[0]), ops[1..]);
    }
  }

  /** Closing a connection removes it from the cache always, and from the temp list exactly
      when no two temp slots hold its key. */
  lemma CloseConnection(s: State, k: Key)
    requires Inv(s) && k != ZERO_KEY
    ensures var t := DeleteTempEntry(DeleteEntry(s, k), k);
      && Inv(t) && !HasKey(t.cache, k)
      && (!HasKey(t.temp, k) <==> forall i, j | 0 <= i < j < |s.temp| :: !(s.temp[i].key == k && s.temp[j].key == k))
  {
    DeleteEntryExact(s, k);
    var c := FirstKey(s.temp, k, 0);
    var t := DeleteTempEntry(DeleteEntry(s, k), k);
    if c < |s.temp| {
      if j :| c < j < |s.temp| && s.temp[j].key == k {
        assert t.temp[j].key == k;
      }
    }
  }

  /** In every run of a fresh NatApp in which each dummy flush starts without a collision or
      leaves nothing behind, closing a connection removes it from both lists. */
  lemma CloseAfterRun(s: State, ops: seq<Op>, k: Key)
    requires Init(s) && CleanRun(s, ops) && k != ZERO_KEY
    ensures var t := DeleteTempEntry(DeleteEntry(Run(s, ops), k), k);
      !HasKey(t.cache, k) && !HasKey(t.temp, k)
  {
    InitInv(s);
    RunExact(s, ops);
    TempRun(s, ops);
    CloseConnection(Run(s, ops), k);
  }

  const TWIN_A := Entry(Key(2, 10, 9, 80, 6), 7, 500, 0, false, false, 0)
  const TWIN_B := Entry(Key(2, 11, 9, 80, 6), 7, 500, 0, false, false, 0)
  const TWIN_KEY := Key(7, 500, 9, 80, 6)

  /** Both twins wait, the table is up for address 7, and one driver call was made. */
  ghost predicate TwinsWaiting(s: State) {
    && Inv(s) && s.temp[0] == TWIN_A && s.temp[1] == TWIN_B && s.pubIp == 7 && s.algPorts == []
    && (forall i | 0 <= i < |s.cache| :: s.cache[i].key == ZERO_KEY)
    && (forall i | 0 <= i < |s.pwrSave| :: s.pwrSave[i] == 0)
    && s.hw.calls == 1 && !s.hw.fate(1).ok && !s.hw.fate(2).ok
  }

  lemma TwinsQueued(s: State)
    requires Init(s) && s.algPorts == [] && s.pubIpPre == 0
    requires s.hw.calls == 0 && s.hw.fate(0).ok && !s.hw.fate(1).ok && !s.hw.fate(2).ok
    ensures TwinsWaiting(Apply(Apply(Apply(s, OpAddTable(7)), OpAddTemp(TWIN_A)), OpAddTemp(TWIN_B)))
  {
    InitInv(s);
    var s1 := Apply(s, OpAddTable(7));
    ApplyExact(s, OpAddTable(7));
    var s2 := s1.(temp := s1.temp[0 := TWIN_A]);
    QueueTwin(s1, TWIN_A, 0);
    QueueTwin(s2, TWIN_B, 1);
  }

  lemma QueueTwin(s: State, e: Entry, i: nat)
    requires s.algPorts == [] && FullKey(e.key) && i < |s.temp| && FirstBlank(s.temp, 0) == i
    requires forall j | 0 <= j < |s.cache| :: s.cache[j].key == ZERO_KEY
    requires forall j | 0 <= j < |s.temp| :: s.temp[j].key != e.key
    ensures AddTempEntry(s, e) == s.(temp := s.temp[i := e])
    ensures i + 1 < |s.temp| && s.temp[i + 1] == ZERO_ENTRY ==> FirstBlank(s.temp[i := e], 0) == i + 1
  {
    var t := s.temp[i := e];
    if i + 1 < |t| && t[i + 1] == ZERO_ENTRY {
      var r := FirstBlank(t, 0);
      assert r < |t| && t[r].key.privateIp == 0;
    }
  }

  lemma TwinsRemain(t: State)
    requires Inv(t) && t.temp[0].key == TWIN_KEY && t.temp[1].key == TWIN_KEY
    ensures HasKey(DeleteTempEntry(DeleteEntry(t, TWIN_KEY), TWIN_KEY).temp, TWIN_KEY)
  {
    CloseConnection(t, TWIN_KEY);
  }

  lemma RefusedSlot(s: State, i: nat)
    requires Inv(s) && i < |s.temp| && s.temp[i] in {TWIN_A, TWIN_B} && s.pubIp == 7 && s.algPorts == []
    requires (forall j | 0 <= j < |s.cache| :: s.cache[j].key == ZERO_KEY) && !s.hw.fate(s.hw.calls).ok
    requires forall j | 0 <= j < |s.pwrSave| :: s.pwrSave[j] == 0
    ensures var t := FlushSlot(s, i, 2, true, true);
      && Inv(t) && t.temp == s.temp[i := t.temp[i]] && t.temp[i].key == TWIN_KEY
      && t.pubIp == 7 && t.algPorts == [] && t.hw.fate == s.hw.fate && t.hw.calls <= s.hw.calls + 1 && t.pwrSave == s.pwrSave
      && (t.hw.calls == s.hw.calls ==> t == s.(temp := t.temp))
      && (forall j | 0 <= j < |t.cache| :: t.cache[j].key == ZERO_KEY)
  {
    FlushSlotKeeps(s, i, 2, true, true);
  }

  lemma TwinsCollapse(s: State)
    requires TwinsWaiting(s)
    ensures var t := FlushFrom(s, 0, 2, true, true);
      Inv(t) && t.temp[0].key == TWIN_KEY && t.temp[1].key == TWIN_KEY
  {
    var u := FlushSlot(s, 0, 2, true, true);
    RefusedSlot(s, 0);
    var v := FlushSlot(u, 1, 2, true, true);
    RefusedSlot(u, 1);
    FlushOutcome(v, 2, 2, true, true);
    FlushKeeps(v, 2, 2, true, true);
  }

  /** The condition on dummy flushes is needed: two waiting connections that differ only in the
      private port (TwinsQueued reaches such a state from a fresh NatApp) collapse to one key
      when the driver refuses them, and closing that connection leaves one copy waiting. */
  lemma DummyTwins(s: State)
    requires TwinsWaiting(s)
    ensures var t := FlushFrom(s, 0, 2, true, true);
      HasKey(DeleteTempEntry(DeleteEntry(t, TWIN_KEY), TWIN_KEY).temp, TWIN_KEY)
  {
    TwinsCollapse(s);
    TwinsRemain(FlushFrom(s, 0, 2, true, true));
  }
}
