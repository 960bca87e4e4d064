/** Properties of NatApp that span several operations: counting hardware rules,
    a WAN bounce, a lost table handle, power save, client return, and flushing. */
module NatProperties {
  import opened NatTypes
  import opened NatHardware
  import opened NatSpec
  import opened NatInvariants

  // ------------------------------------------------------------- rule counting

  ghost function EnabledCount(c: seq<Entry>): nat {
    if c == [] then 0 else EnabledCount(c[..|c| - 1]) + if c[|c| - 1].enabled then 1 else 0
  }

  ghost function Handles(c: seq<Entry>): set<nat> {
    if c == [] then {} else Handles(c[..|c| - 1]) + if c[|c| - 1].enabled then {c[|c| - 1].hdl} else {}
  }

  lemma {:induction false} HandlesOwned(c: seq<Entry>, h: nat)
    ensures h in Handles(c) <==> Owned(c, h)
  {
    if c != [] {
      var d := c[..|c| - 1];
      HandlesOwned(d, h);
      if Owned(c, h) {
        var i :| 0 <= i < |c| && c[i].enabled && c[i].hdl == h;
        assert i < |d| ==> d[i] == c[i];
      }
    }
  }

  lemma {:induction false} HandleCount(c: seq<Entry>)
    requires forall i, j | 0 <= i < j < |c| :: c[i].enabled && c[j].enabled ==> c[i].hdl != c[j].hdl
    ensures |Handles(c)| == EnabledCount(c)
  {
    if c != [] {
      HandleCount(c[..|c| - 1]);
      HandlesOwned(c[..|c| - 1], c[|c| - 1].hdl);
    }
  }

  /** The hardware holds one rule per enabled slot, plus the orphans. */
  lemma RuleCount(s: State)
    requires Inv(s)
    ensures |s.hw.rules| == EnabledCount(s.cache) + |Orphans(s)|
  {
    HandleCount(s.cache);
    forall h ensures h in s.hw.rules.Keys <==> h in Handles(s.cache) + Orphans(s) {
      HandlesOwned(s.cache, h);
    }
    forall h | h in Handles(s.cache) ensures h !in Orphans(s) {
      HandlesOwned(s.cache, h);
    }
    assert s.hw.rules.Keys == Handles(s.cache) + Orphans(s);
  }

  /** Without orphans every live rule is owned by exactly one enabled slot. */
  lemma RuleOwner(s: State, h: nat)
    requires Inv(s) && Orphans(s) == {} && h in s.hw.rules
    ensures OwnedOnce(s, h)
  {
    assert h !in Orphans(s);
    var i :| 0 <= i < |s.cache| && s.cache[i].enabled && s.cache[i].hdl == h;
    assert Owns(s, i, h);
    forall j | 0 <= j < |s.cache| && Owns(s, j, h) ensures j == i {
    }
  }

  /** In every run of a fresh NatApp whose deletions the driver grants, whatever else it refuses,
      every live hardware rule belongs to exactly one enabled slot. */
  lemma RunOwned(s: State, ops: seq<Op>)
    requires Init(s) && GrantedRun(s, ops)
    ensures var t := Run(s, ops);
      && Inv(t) && Orphans(t) == {} && |t.hw.rules| == EnabledCount(t.cache)
      && forall h | h in t.hw.rules :: OwnedOnce(t, h)
  {
    InitInv(s);
    RunSafe(s, ops);
    NoLeaks(s, ops);
    var t := Run(s, ops);
    RuleCount(t);
    forall h | h in t.hw.rules ensures OwnedOnce(t, h) {
      RuleOwner(t, h);
    }
  }

  /** Exactly one enabled slot owns rule `h`. */
  ghost predicate OwnedOnce(s: State, h: nat) {
    exists i :: 0 <= i < |s.cache| && Owns(s, i, h) && forall j | 0 <= j < |s.cache| && Owns(s, j, h) :: j == i
  }

  ghost predicate Owns(s: State, i: nat, h: nat)
    requires i < |s.cache|
  {
    s.cache[i].enabled && s.cache[i].hdl == h && h in s.hw.rules && s.hw.rules[h] == RuleOf(s.cache[i])
  }

  // -------------------------------------------------------- what a sweep leaves

  ghost predicate SlotAfter(a: Entry, b: Entry, w: Sweep) {
    if !Hit(a, w) then b == a
    else match w
      case Restore => b == ZERO_ENTRY || SlotDone(a, b, w)
      case Wake(_) => b == ZERO_ENTRY || SlotDone(a, b, w)
      case Sleep(_) => b == a || SlotDone(a, b, w)
      case Leave(_) => b == a || SlotDone(a, b, w)
      case StaLeave(_) => (b == a && a.enabled) || SlotDone(a, b, w)
  }

  ghost predicate SlotDone(a: Entry, b: Entry, w: Sweep) {
    if !Hit(a, w) then b == a
    else match w
      case Restore => b == a.(enabled := true, hdl := b.hdl)
      case Wake(_) => b == a.(enabled := true, hdl := b.hdl)
      case Sleep(_) => b == a.(enabled := false, hdl := 0)
      case Leave(_) => b == a.(enabled := false)
      case StaLeave(_) => b == ZERO_ENTRY
  }

  /** Everything but the cache, the count and the rules. */
  ghost predicate SameRest(s: State, t: State) {
    && t.temp == s.temp && t.pwrSave == s.pwrSave && t.pubIp == s.pubIp && t.pubIpPre == s.pubIpPre
    && t.tbl == s.tbl && t.algPorts == s.algPorts && t.hw.table == s.hw.table
    && (s.tbl == 0 ==> t.hw.rules == s.hw.rules)
  }

  /** What sweeping slots `i..` of `s` with `w` makes of it. */
  ghost predicate Swept(s: State, t: State, i: nat, w: Sweep) {
    && |t.cache| == |s.cache| && i <= |s.cache| && SameRest(s, t)
    && s.hw.fate == t.hw.fate && s.hw.calls <= t.hw.calls
    && (forall j | 0 <= j < i :: t.cache[j] == s.cache[j])
    && (forall j | i <= j < |s.cache| :: SlotAfter(s.cache[j], t.cache[j], w))
    && (s.tbl != 0 && Granted(s.hw.fate, s.hw.calls, t.hw.calls) ==>
          forall j | i <= j < |s.cache| :: SlotDone(s.cache[j], t.cache[j], w))
  }

  /** What one iteration at slot `i` makes of it. */
  ghost predicate Touched(s: State, u: State, i: nat, w: Sweep) {
    && i < |s.cache| == |u.cache| && u.cache == s.cache[i := u.cache[i]] && SameRest(s, u)
    && s.hw.fate == u.hw.fate && s.hw.calls <= u.hw.calls
    && SlotAfter(s.cache[i], u.cache[i], w)
    && (s.tbl != 0 && Granted(s.hw.fate, s.hw.calls, u.hw.calls) ==> SlotDone(s.cache[i], u.cache[i], w))
  }

  lemma TouchSlot(s: State, i: nat, w: Sweep)
    requires Inv(s) && i < |s.cache| && Sound(s, i, w)
    ensures Touched(s, Touch(s, i, w), i, w)
  {
    assert Granted(s.hw.fate, s.hw.calls, s.hw.calls + 1) ==> s.hw.fate(s.hw.calls).ok;
  }

  lemma SweptChain(s: State, u: State, t: State, i: nat, w: Sweep)
    requires Touched(s, u, i, w) && Swept(u, t, i + 1, w)
    ensures Swept(s, t, i, w)
  {
    assert forall j | i < j < |s.cache| :: u.cache[j] == s.cache[j];
    assert t.cache[i] == u.cache[i];
  }

  lemma {:induction false} SweepSlots(s: State, i: nat, w: Sweep)
    requires Inv(s) && i <= |s.cache| && Sound(s, i, w)
    ensures Swept(s, SweepFrom(s, i, w), i, w)
    decreases |s.cache| - i
  {
    if i < |s.cache| {
      var u := Touch(s, i, w);
      TouchKeeps(s, i, w);
      TouchSlot(s, i, w);
      SweepSlots(u, i + 1, w);
      SweptChain(s, u, SweepFrom(u, i + 1, w), i, w);
    }
  }

  // ----------------------------------------------- without a table handle

  /** With no table handle the driver accepts nothing: table, handle, rules and the
      remembered address stay, for every operation but a successful table creation. */
  ghost predicate SameTable(s: State, t: State) {
    t.hw.table == s.hw.table && t.tbl == s.tbl && t.pubIpPre == s.pubIpPre && t.hw.rules == s.hw.rules
  }

  lemma {:induction false} FlushStuck(s: State, i: nat, ip: nat, isAdd: bool, isDummy: bool)
    requires s.tbl == 0 && i <= |s.temp|
    ensures SameTable(s, FlushFrom(s, i, ip, isAdd, isDummy))
    decreases |s.temp| - i
  {
    if i < |s.temp| {
      FlushStuck(FlushSlot(s, i, ip, isAdd, isDummy), i + 1, ip, isAdd, isDummy);
    }
  }

  /** `op` is a table creation that succeeds. */
  ghost predicate Creates(s: State, op: Op) { op.OpAddTable? && !s.hw.table && s.hw.fate(s.hw.calls).ok }

  /** No table creation of the run succeeds. */
  ghost predicate NoCreation(s: State, ops: seq<Op>)
    decreases |ops|
  {
    ops == [] || (!Creates(s, ops[0]) && NoCreation(Apply(s, ops[0]), ops[1..]))
  }

  lemma StuckStep(s: State, op: Op)
    requires Inv(s) && s.tbl == 0 && !Creates(s, op)
    ensures SameTable(s, Apply(s, op))
  {
    match op
    case OpUpdatePwrSave(ip) =>
      if ip != 0 { SweepSlots(s.(pwrSave := ReplaceFirst(s.pwrSave, 0, ip)), 0, Sleep(ip)); }
    case OpResetPwrSave(ip) =>
      if ip != 0 { SweepSlots(s.(pwrSave := ReplaceFirst(s.pwrSave, ip, 0)), 0, Wake(ip)); }
    case OpClntDiscon(ip) =>
      if ip != 0 { SweepSlots(s.(pwrSave := ReplaceFirst(s.pwrSave, ip, 0)), 0, Leave(ip)); }
    case OpStaDiscon(ip) =>
      if ip != 0 { SweepSlots(s, 0, StaLeave(ip)); }
    case OpFlush(ip, isAdd, isDummy) => FlushStuck(s, 0, ip, isAdd, isDummy);
    case _ =>
  }

  lemma {:induction false} StuckRun(s: State, ops: seq<Op>)
    requires Inv(s) && s.tbl == 0
    requires s.hw.table || NoCreation(s, ops)
    ensures SameTable(s, Run(s, ops))
    decreases |ops|
  {
    if ops != [] {
      StuckStep(s, ops[0]);
      ApplyExact(s, ops[0]);
      StuckRun(Apply(s, ops[0]), ops[1..]);
    }
  }

  /** The hardware has a table that NatApp has no handle of. */
  ghost predicate TableLost(s: State) { s.hw.table && s.tbl == 0 }

  /** Creating a table loses the handle of one if and only if there is a table already. */
  lemma LosesTableIff(s: State, ip: nat)
    requires Inv(s)
    ensures TableLost(AddTable(s, ip).s) <==> s.hw.table
    ensures AddTable(s, ip).s.tbl != 0 <==> !s.hw.table && s.hw.fate(s.hw.calls).ok
  {
    var r := CreateTable(s.hw);
    if r.ok && ip == s.pubIpPre {
      SweepSlots(s.(hw := r.hw, tbl := r.hdl), 0, Restore);
    }
  }

  /** A lost table stays lost: no run of operations adds, removes or drops anything. */
  lemma LostForever(s: State, ops: seq<Op>)
    requires Inv(s) && TableLost(s)
    ensures var t := Run(s, ops);
      && TableLost(t) && t.hw.rules == s.hw.rules
      && forall ip :: AddTable(t, ip).ret != 0 && DeleteTable(t, ip).ret != 0
  {
    StuckRun(s, ops);
  }

  // ----------------------------------------------------------------- WAN bounce

  /** Slots occupied in `c` and empty in `d`. */
  ghost function Lost(c: seq<Entry>, d: seq<Entry>): nat
    requires |c| == |d|
  {
    if c == [] then 0
    else
      var n := |c| - 1;
      Lost(c[..n], d[..n]) + if c[n].key != ZERO_KEY && d[n].key == ZERO_KEY then 1 else 0
  }

  lemma {:induction false} LostCount(c: seq<Entry>, d: seq<Entry>)
    requires |c| == |d| && forall i | 0 <= i < |c| :: d[i].key == c[i].key || d[i].key == ZERO_KEY
    ensures Occupied(c) - Occupied(d) == Lost(c, d)
  {
    if c != [] {
      LostCount(c[..|c| - 1], d[..|c| - 1]);
    }
  }

  lemma {:induction false} AllEnabledCount(c: seq<Entry>)
    requires forall i | 0 <= i < |c| :: c[i].enabled <==> c[i].key != ZERO_KEY
    ensures EnabledCount(c) == Occupied(c)
  {
    if c != [] {
      AllEnabledCount(c[..|c| - 1]);
    }
  }

  /** A slot after a restoring table creation: offered and installed, offered and refused,
      or empty all along. */
  ghost predicate Restored(a: Entry, b: Entry) {
    if a.key == ZERO_KEY then b == a else b == ZERO_ENTRY || b == a.(enabled := true, hdl := b.hdl)
  }

  /** What creating the table again for the remembered address makes of `d`: it succeeds if the
      driver grants it; then every occupied slot is enabled, the hardware holds exactly one rule
      per occupied slot, and refused slots are gone from both sides and from the count. */
  ghost predicate Bounced(d: State, o: Out) {
    && |o.s.cache| == |d.cache|
    && (o.ret == 0 <==> d.hw.fate(d.hw.calls).ok)
    && (o.ret == 0 ==>
          && (forall i | 0 <= i < |d.cache| :: Restored(d.cache[i], o.s.cache[i]))
          && (forall i | 0 <= i < |d.cache| :: o.s.cache[i].enabled <==> o.s.cache[i].key != ZERO_KEY)
          && |o.s.hw.rules| == Occupied(o.s.cache) && Mirrored(o.s.cache, o.s.hw.rules) && Orphans(o.s) == {}
          && d.curCnt - o.s.curCnt == Lost(d.cache, o.s.cache)
          && (Granted(d.hw.fate, d.hw.calls, o.s.hw.calls) ==> o.s.curCnt == d.curCnt))
  }

  /** Dropping the table for `ip`, any operations while it is gone, refused creations included,
      and creating it again for `ip`. */
  lemma WanBounce(s: State, ip: nat, ops: seq<Op>)
    requires Inv(s) && DeleteTable(s, ip).ret == 0 && NoCreation(DeleteTable(s, ip).s, ops)
    ensures var d := Run(DeleteTable(s, ip).s, ops); Bounced(d, AddTable(d, ip))
  {
    var s1 := DeleteTable(s, ip).s;
    DeleteTableExact(s, ip);
    StuckRun(s1, ops);
    RunExact(s1, ops);
    BounceUp(Run(s1, ops), ip);
  }

  /** The second half of the bounce, from any state without a table. */
  lemma BounceUp(d: State, ip: nat)
    requires Inv(d) && !d.hw.table && ip == d.pubIpPre
    ensures Bounced(d, AddTable(d, ip))
  {
    AddTableKeeps(d, ip);
    var o := AddTable(d, ip);
    if o.ret == 0 {
      var r := CreateTable(d.hw);
      var d1 := d.(hw := r.hw, tbl := r.hdl);
      SweepSlots(d1, 0, Restore);
      assert o.s.cache == SweepFrom(d1, 0, Restore).cache;
      forall i | 0 <= i < |d.cache|
        ensures Restored(d.cache[i], o.s.cache[i])
        ensures o.s.cache[i].enabled <==> o.s.cache[i].key != ZERO_KEY
      {
        assert SlotAfter(d1.cache[i], o.s.cache[i], Restore);
      }
      LostCount(d.cache, o.s.cache);
      AllEnabledCount(o.s.cache);
      RuleCount(o.s);
      assert Orphans(d) == {};
      if Granted(d.hw.fate, d.hw.calls, o.s.hw.calls) {
        forall i | 0 <= i < |d.cache| ensures o.s.cache[i].key == d.cache[i].key {
          assert SlotDone(d1.cache[i], o.s.cache[i], Restore);
        }
        OccupiedSameKeys(d.cache, o.s.cache);
      }
    }
  }

  // ------------------------------------------------- which slots a sweep installs

  /** How many of the slots `i..j` a sweep asks the driver about. */
  ghost function Asks(c: seq<Entry>, i: nat, j: nat, w: Sweep): nat
    requires j <= |c|
    decreases j - i
  {
    if i >= j then 0 else (if Hit(c[i], w) then 1 else 0) + Asks(c, i + 1, j, w)
  }

  lemma {:induction false} AsksSame(c: seq<Entry>, d: seq<Entry>, i: nat, j: nat, w: Sweep)
    requires j <= |c| == |d| && forall k | i <= k < j :: c[k] == d[k]
    ensures Asks(c, i, j, w) == Asks(d, i, j, w)
    decreases j - i
  {
    if i < j {
      AsksSame(c, d, i + 1, j, w);
    }
  }

  /** The driver takes the rule offered at its call number `n`. */
  ghost predicate Takes(s: State, n: nat) { s.tbl != 0 && s.hw.table && s.hw.fate(n).ok }

  /** What becomes of a slot that the driver is asked about at call number `n`. */
  ghost predicate Answered(s: State, a: Entry, b: Entry, n: nat, w: Sweep) {
    if w.Restore? || w.Wake?
    then if Takes(s, n) then b == a.(enabled := true, hdl := b.hdl) else b == ZERO_ENTRY
    else if Takes(s, n) then b == a.(enabled := false, hdl := b.hdl) else b == a
  }

  /** What sweeping slots `i..` of `s` makes of every slot, for every driver answer. */
  ghost predicate SweptExactly(s: State, t: State, i: nat, w: Sweep) {
    && |t.cache| == |s.cache| && i <= |s.cache|
    && (forall j | 0 <= j < i :: t.cache[j] == s.cache[j])
    && (forall j | i <= j < |s.cache| && !Hit(s.cache[j], w) :: t.cache[j] == s.cache[j])
    && (forall j | i <= j < |s.cache| && Hit(s.cache[j], w) ::
          Answered(s, s.cache[j], t.cache[j], s.hw.calls + Asks(s.cache, i, j, w), w))
  }

  /** What one iteration at slot `i` makes of it. */
  ghost predicate TouchedExactly(s: State, u: State, i: nat, w: Sweep) {
    && i < |s.cache| == |u.cache| && u.cache == s.cache[i := u.cache[i]]
    && u.tbl == s.tbl && u.hw.table == s.hw.table && u.hw.fate == s.hw.fate
    && u.hw.calls == s.hw.calls + (if Hit(s.cache[i], w) then 1 else 0)
    && if Hit(s.cache[i], w) then Answered(s, s.cache[i], u.cache[i], s.hw.calls, w) else u.cache[i] == s.cache[i]
  }

  lemma TouchExact(s: State, i: nat, w: Sweep)
    requires Inv(s) && i < |s.cache| && !w.StaLeave?
    ensures TouchedExactly(s, Touch(s, i, w), i, w)
  {
  }

  lemma AnsweredSame(s: State, u: State, a: Entry, b: Entry, n: nat, w: Sweep)
    requires u.tbl == s.tbl && u.hw.table == s.hw.table && u.hw.fate == s.hw.fate
    ensures Answered(s, a, b, n, w) <==> Answered(u, a, b, n, w)
  {
  }

  lemma ExactChain(s: State, u: State, t: State, i: nat, w: Sweep)
    requires TouchedExactly(s, u, i, w) && SweptExactly(u, t, i + 1, w)
    ensures SweptExactly(s, t, i, w)
  {
    hide Hit, Answered;
    assert forall j | 0 <= j < |s.cache| && j != i :: u.cache[j] == s.cache[j];
    forall j | i <= j < |s.cache| && Hit(s.cache[j], w)
      ensures Answered(s, s.cache[j], t.cache[j], s.hw.calls + Asks(s.cache, i, j, w), w)
    {
      if j > i {
        AsksSame(s.cache, u.cache, i + 1, j, w);
        AnsweredSame(s, u, u.cache[j], t.cache[j], u.hw.calls + Asks(u.cache, i + 1, j, w), w);
      }
    }
  }

  lemma {:induction false} SweepExact(s: State, i: nat, w: Sweep)
    requires Inv(s) && i <= |s.cache| && Sound(s, i, w) && !w.StaLeave?
    ensures SweptExactly(s, SweepFrom(s, i, w), i, w)
    decreases |s.cache| - i
  {
    if i < |s.cache| {
      var u := Touch(s, i, w);
      TouchKeeps(s, i, w);
      TouchExact(s, i, w);
      hide Touch, Inv, Kept, Sound, TouchedExactly, SweptExactly;
      SweepExact(u, i + 1, w);
      ExactChain(s, u, SweepFrom(u, i + 1, w), i, w);
    }
  }

  /** The slot that the `k`-th question of a sweep is about. */
  lemma {:induction false} AskedSlot(c: seq<Entry>, i: nat, w: Sweep, k: nat) returns (j: nat)
    requires i <= |c| && k < Asks(c, i, |c|, w)
    ensures i <= j < |c| && Hit(c[j], w) && Asks(c, i, j, w) == k
    decreases |c| - i
  {
    if Hit(c[i], w) && k == 0 {
      j := i;
    } else {
      j := AskedSlot(c, i + 1, w, if Hit(c[i], w) then k - 1 else k);
    }
  }

  lemma {:induction false} AsksBelow(c: seq<Entry>, i: nat, j: nat, w: Sweep)
    requires i <= j < |c| && Hit(c[j], w)
    ensures Asks(c, i, j, w) < Asks(c, i, |c|, w)
    decreases j - i
  {
    if i < j {
      AsksBelow(c, i + 1, j, w);
    }
  }

  // ------------------------------------------------------------- power save

  /** Sleeping clients are listed once and none of their rules is in the hardware. */
  ghost predicate Asleep(s: State) {
    Distinct(s.pwrSave) && forall i | 0 <= i < |s.cache| :: s.cache[i].enabled ==> !Sleeping(s, s.cache[i].key.privateIp)
  }

  /** A table creation for `ip` puts no rule of a sleeping client into the hardware: it restores
      nothing, it fails, or each cached connection of a sleeping client is refused in its turn. */
  ghost predicate RestoresNoSleeper(s: State, ip: nat) {
    || ip != s.pubIpPre || s.hw.table || !s.hw.fate(s.hw.calls).ok
    || forall i | 0 <= i < |s.cache| && Sleeping(s, s.cache[i].key.privateIp) ::
         !s.hw.fate(s.hw.calls + 1 + Asks(s.cache, 0, i, Restore)).ok
  }

  /** Putting `ip` to sleep lists nobody, or takes all its rules out of the hardware: none is
      there, or there is a handle and the driver grants as many calls as there are. */
  ghost predicate SleepsWell(s: State, ip: nat) {
    var n := Asks(s.cache, 0, |s.cache|, Sleep(ip));
    || ip == 0 || ip in s.pwrSave || 0 !in s.pwrSave || n == 0
    || (s.tbl != 0 && Granted(s.hw.fate, s.hw.calls, s.hw.calls + n))
  }

  /** What a caller can look at before `op` is made. */
  ghost predicate Gentle(s: State, op: Op) {
    match op
    case OpAddTable(ip) => RestoresNoSleeper(s, ip)
    case OpUpdatePwrSave(ip) => SleepsWell(s, ip)
    case _ => true
  }

  lemma AddEntryAsleep(s: State, e: Entry)
    requires Inv(s) && Asleep(s)
    ensures Asleep(AddEntry(s, e).s)
  {
  }

  lemma FlushSlotAsleep(s: State, i: nat, ip: nat, isAdd: bool, isDummy: bool)
    requires Inv(s) && i < |s.temp| && Asleep(s)
    ensures Asleep(FlushSlot(s, i, ip, isAdd, isDummy))
  {
    if Mentions(s.temp[i], ip) && isAdd && s.temp[i].publicIp == s.pubIp {
      var e := Dummied(s.temp[i], isDummy);
      AddEntryAsleep(s.(temp := s.temp[i := e]), e);
    }
  }

  lemma {:induction false} FlushAsleep(s: State, i: nat, ip: nat, isAdd: bool, isDummy: bool)
    requires Inv(s) && i <= |s.temp| && Asleep(s)
    ensures Asleep(FlushFrom(s, i, ip, isAdd, isDummy))
    decreases |s.temp| - i
  {
    if i < |s.temp| {
      FlushSlotKeeps(s, i, ip, isAdd, isDummy);
      FlushSlotAsleep(s, i, ip, isAdd, isDummy);
      var u := FlushSlot(s, i, ip, isAdd, isDummy);
      hide FlushSlot;
      FlushAsleep(u, i + 1, ip, isAdd, isDummy);
    }
  }

  lemma Listed(a: seq<nat>, ip: nat)
    requires Distinct(a) && ip != 0 && ip !in a
    ensures Distinct(ReplaceFirst(a, 0, ip)) && forall x | x in ReplaceFirst(a, 0, ip) :: x == ip || x in a
  {
  }

  lemma Unlisted(a: seq<nat>, ip: nat)
    requires Distinct(a) && ip != 0
    ensures Distinct(ReplaceFirst(a, ip, 0)) && ip !in ReplaceFirst(a, ip, 0)
    ensures forall x | x in ReplaceFirst(a, ip, 0) :: x == 0 || x in a
  {
  }

  /** A sweep that wakes only clients that are not listed. */
  lemma SweptAsleep(s: State, t: State, w: Sweep)
    requires Swept(s, t, 0, w) && Asleep(s) && !w.Restore? && (w.Wake? ==> !Sleeping(s, w.ip))
    ensures Asleep(t)
  {
    forall i | 0 <= i < |t.cache| && t.cache[i].enabled ensures !Sleeping(t, t.cache[i].key.privateIp) {
      assert SlotAfter(s.cache[i], t.cache[i], w);
    }
  }

  lemma PlainAsleep(s: State, op: Op)
    requires Inv(s) && Asleep(s)
    requires op.OpDeleteTable? || op.OpDeleteEntry? || op.OpCacheEntry? || op.OpAddTemp? || op.OpDeleteTemp? || op.OpStamp?
    ensures Asleep(Apply(s, op))
  {
  }

  /** Exactly when putting a client to sleep keeps sleeping clients out of the hardware. */
  lemma SleepsWellIff(s: State, ip: nat)
    requires Inv(s) && Asleep(s)
    ensures Asleep(UpdatePwrSaveIf(s, ip).s) <==> SleepsWell(s, ip)
  {
    if ip != 0 && ip !in s.pwrSave {
      var w := Sleep(ip);
      var s1 := s.(pwrSave := ReplaceFirst(s.pwrSave, 0, ip));
      Listed(s.pwrSave, ip);
      PowerSaveLists(s, ip);
      SweepExact(s1, 0, w);
      SweepPwrSave(s1, 0, w);
      var t := UpdatePwrSaveIf(s, ip).s;
      assert t == SweepFrom(s1, 0, w);
      hide SweepFrom;
      if !SleepsWell(s, ip) {
        var j := RefusedSleeper(s, ip);
        assert Answered(s1, s1.cache[j], t.cache[j], s1.hw.calls + Asks(s1.cache, 0, j, w), w);
        assert t.cache[j].enabled && Sleeping(t, t.cache[j].key.privateIp);
      } else {
        forall j | 0 <= j < |t.cache| && t.cache[j].enabled ensures !Sleeping(t, t.cache[j].key.privateIp) {
          if Hit(s1.cache[j], w) {
            AsksBelow(s.cache, 0, j, w);
            assert Answered(s1, s1.cache[j], t.cache[j], s1.hw.calls + Asks(s1.cache, 0, j, w), w);
          }
        }
      }
    }
  }

  lemma RefusedSleeper(s: State, ip: nat) returns (j: nat)
    requires Inv(s) && !SleepsWell(s, ip)
    ensures j < |s.cache| && Hit(s.cache[j], Sleep(ip)) && !Takes(s, s.hw.calls + Asks(s.cache, 0, j, Sleep(ip)))
  {
    var n := Asks(s.cache, 0, |s.cache|, Sleep(ip));
    var k: nat := 0;
    if s.tbl != 0 {
      var m: nat :| s.hw.calls <= m < s.hw.calls + n && !s.hw.fate(m).ok;
      k := m - s.hw.calls;
    }
    j := AskedSlot(s.cache, 0, Sleep(ip), k);
  }

  /** For every operation and every driver answer: it keeps sleeping clients listed once and out
      of the hardware if and only if it is gentle. */
  lemma AsleepStep(s: State, op: Op)
    requires Inv(s) && Asleep(s)
    ensures Asleep(Apply(s, op)) <==> Gentle(s, op)
  {
    match op
    case OpAddTable(ip) => RestoreWakes(s, ip);
    case OpUpdatePwrSave(ip) => SleepsWellIff(s, ip);
    case OpResetPwrSave(ip) =>
      if ip != 0 {
        Unlisted(s.pwrSave, ip);
        var s1 := s.(pwrSave := ReplaceFirst(s.pwrSave, ip, 0));
        SweepSlots(s1, 0, Wake(ip));
        SweptAsleep(s1, Apply(s, op), Wake(ip));
      }
    case OpClntDiscon(ip) =>
      if ip != 0 {
        Unlisted(s.pwrSave, ip);
        var s1 := s.(pwrSave := ReplaceFirst(s.pwrSave, ip, 0));
        SweepSlots(s1, 0, Leave(ip));
        SweptAsleep(s1, Apply(s, op), Leave(ip));
      }
    case OpStaDiscon(ip) =>
      if ip != 0 {
        SweepSlots(s, 0, StaLeave(ip));
        SweptAsleep(s, Apply(s, op), StaLeave(ip));
      }
    case OpFlush(ip, isAdd, isDummy) => FlushAsleep(s, 0, ip, isAdd, isDummy);
    case OpAddEntry(e) => AddEntryAsleep(s, e);
    case _ => PlainAsleep(s, op);
  }

  ghost predicate GentleRun(s: State, ops: seq<Op>)
    decreases |ops|
  {
    ops == [] || (Gentle(s, ops[0]) && GentleRun(Apply(s, ops[0]), ops[1..]))
  }

  lemma {:induction false} AsleepRun(s: State, ops: seq<Op>)
    requires Inv(s) && Asleep(s) && GentleRun(s, ops)
    ensures Asleep(Run(s, ops))
    decreases |ops|
  {
    if ops != [] {
      AsleepStep(s, ops[0]);
      ApplyExact(s, ops[0]);
      AsleepRun(Apply(s, ops[0]), ops[1..]);
    }
  }

  lemma {:induction false} FlushPwrSave(s: State, i: nat, ip: nat, isAdd: bool, isDummy: bool)
    requires i <= |s.temp|
    ensures FlushFrom(s, i, ip, isAdd, isDummy).pwrSave == s.pwrSave
    decreases |s.temp| - i
  {
    if i < |s.temp| {
      FlushPwrSave(FlushSlot(s, i, ip, isAdd, isDummy), i + 1, ip, isAdd, isDummy);
    }
  }

  lemma {:induction false} SweepPwrSave(s: State, i: nat, w: Sweep)
    requires i <= |s.cache|
    ensures SweepFrom(s, i, w).pwrSave == s.pwrSave
    decreases |s.cache| - i
  {
    if i < |s.cache| {
      SweepPwrSave(Touch(s, i, w), i + 1, w);
    }
  }

  lemma ListedStep(s: State, op: Op)
    requires Distinct(s.pwrSave)
    ensures Distinct(Apply(s, op).pwrSave)
  {
    hide SweepFrom, FlushFrom;
    match op
    case OpAddTable(ip) =>
      var r := CreateTable(s.hw);
      SweepPwrSave(s.(hw := r.hw, tbl := r.hdl), 0, Restore);
    case OpUpdatePwrSave(ip) =>
      if ip != 0 && ip !in s.pwrSave {
        Listed(s.pwrSave, ip);
        SweepPwrSave(s.(pwrSave := ReplaceFirst(s.pwrSave, 0, ip)), 0, Sleep(ip));
      }
    case OpResetPwrSave(ip) =>
      if ip != 0 {
        Unlisted(s.pwrSave, ip);
        SweepPwrSave(s.(pwrSave := ReplaceFirst(s.pwrSave, ip, 0)), 0, Wake(ip));
      }
    case OpClntDiscon(ip) =>
      if ip != 0 {
        Unlisted(s.pwrSave, ip);
        SweepPwrSave(s.(pwrSave := ReplaceFirst(s.pwrSave, ip, 0)), 0, Leave(ip));
      }
    case OpStaDiscon(ip) => SweepPwrSave(s, 0, StaLeave(ip));
    case OpFlush(ip, isAdd, isDummy) => FlushPwrSave(s, 0, ip, isAdd, isDummy);
    case _ =>
  }

  /** No client is listed twice in any run, whatever the driver answers. */
  lemma {:induction false} ListedOnce(s: State, ops: seq<Op>)
    requires Distinct(s.pwrSave)
    ensures Distinct(Run(s, ops).pwrSave)
    decreases |ops|
  {
    if ops != [] {
      ListedStep(s, ops[0]);
      ListedOnce(Apply(s, ops[0]), ops[1..]);
    }
  }

  /** Exactly when a table creation keeps sleeping clients out of the hardware, for every driver
      answer. */
  lemma RestoreWakes(s: State, ip: nat)
    requires Inv(s) && Asleep(s)
    ensures Asleep(AddTable(s, ip).s) <==> RestoresNoSleeper(s, ip)
  {
    var r := CreateTable(s.hw);
    var s1 := s.(hw := r.hw, tbl := r.hdl);
    if r.ok && ip == s.pubIpPre {
      SweepExact(s1, 0, Restore);
      SweepPwrSave(s1, 0, Restore);
      var t := SweepFrom(s1, 0, Restore);
      hide SweepFrom;
      forall i | 0 <= i < |s.cache|
        ensures t.cache[i].enabled <==>
          s.cache[i].key.privateIp != 0 && s.hw.fate(s.hw.calls + 1 + Asks(s.cache, 0, i, Restore)).ok
        ensures t.cache[i].enabled ==> t.cache[i].key == s.cache[i].key
      {
        if Hit(s1.cache[i], Restore) {
          assert Answered(s1, s1.cache[i], t.cache[i], s1.hw.calls + Asks(s1.cache, 0, i, Restore), Restore);
        }
      }
    }
  }

  /** Putting a client to sleep and waking it, with every driver call granted and a usable
      table: the hardware holds the same rules as before, under new handles for that client,
      if and only if all of that client's cached rules were in the hardware. */
  lemma PowerCycle(s: State, ip: nat)
    requires Inv(s) && Orphans(s) == {} && s.tbl != 0 && ip != 0
    requires Granted(s.hw.fate, s.hw.calls, ResetPwrSaveIf(UpdatePwrSaveIf(s, ip).s, ip).hw.calls)
    ensures var t := ResetPwrSaveIf(UpdatePwrSaveIf(s, ip).s, ip);
      && Inv(t) && Orphans(t) == {} && t.curCnt == s.curCnt
      && (forall i | 0 <= i < |s.cache| :: |t.cache| == |s.cache| && t.cache[i] ==
            if s.cache[i].key.privateIp == ip then s.cache[i].(enabled := true, hdl := t.cache[i].hdl) else s.cache[i])
      && ((t.hw.rules.Values == s.hw.rules.Values && |t.hw.rules| == |s.hw.rules|) <==>
            forall i | 0 <= i < |s.cache| && s.cache[i].key.privateIp == ip :: s.cache[i].enabled)
  {
    var s1 := s.(pwrSave := ReplaceFirst(s.pwrSave, 0, ip));
    var u := UpdatePwrSaveIf(s, ip).s;
    var u1 := u.(pwrSave := ReplaceFirst(u.pwrSave, ip, 0));
    var t := ResetPwrSaveIf(u, ip);
    if ip !in s.pwrSave {
      SweepSlots(s1, 0, Sleep(ip));
      SweepKeeps(s1, 0, Sleep(ip));
    }
    SweepSlots(u1, 0, Wake(ip));
    SweepKeeps(u1, 0, Wake(ip));
    forall i | 0 <= i < |s.cache|
      ensures t.cache[i] == if s.cache[i].key.privateIp == ip
        then s.cache[i].(enabled := true, hdl := t.cache[i].hdl) else s.cache[i]
    {
      assert ip !in s.pwrSave ==> SlotDone(s1.cache[i], u.cache[i], Sleep(ip));
      assert SlotDone(u1.cache[i], t.cache[i], Wake(ip));
    }
    OccupiedSameKeys(s.cache, t.cache);
    SameRulesIff(s, t, ip);
  }

  lemma {:induction false} EnabledMonotone(c: seq<Entry>, d: seq<Entry>)
    requires |c| == |d| && forall i | 0 <= i < |c| :: c[i].enabled ==> d[i].enabled
    ensures EnabledCount(c) <= EnabledCount(d)
    ensures EnabledCount(c) == EnabledCount(d) <==> forall i | 0 <= i < |c| :: c[i].enabled == d[i].enabled
  {
    if c != [] {
      var n := |c| - 1;
      EnabledMonotone(c[..n], d[..n]);
      assert (forall i | 0 <= i < |c| :: c[i].enabled == d[i].enabled) <==>
        (c[n].enabled == d[n].enabled && forall i | 0 <= i < n :: c[..n][i].enabled == d[..n][i].enabled);
    }
  }

  lemma SameRulesIff(s: State, t: State, ip: nat)
    requires Inv(s) && Inv(t) && Orphans(s) == {} && Orphans(t) == {} && |t.cache| == |s.cache|
    requires forall i | 0 <= i < |s.cache| ::
      t.cache[i] == if s.cache[i].key.privateIp == ip then s.cache[i].(enabled := true, hdl := t.cache[i].hdl) else s.cache[i]
    ensures (t.hw.rules.Values == s.hw.rules.Values && |t.hw.rules| == |s.hw.rules|) <==>
      forall i | 0 <= i < |s.cache| && s.cache[i].key.privateIp == ip :: s.cache[i].enabled
  {
    RuleCount(s);
    RuleCount(t);
    EnabledMonotone(s.cache, t.cache);
    if forall i | 0 <= i < |s.cache| && s.cache[i].key.privateIp == ip :: s.cache[i].enabled {
      SlotRules(s, t);
      SlotRules(t, s);
    }
  }

  /** Every rule of `s` is a rule of `t` when slots agree up to the handle. */
  lemma SlotRules(s: State, t: State)
    requires Inv(s) && Inv(t) && Orphans(s) == {} && |t.cache| == |s.cache|
    requires forall i | 0 <= i < |s.cache| :: RuleOf(t.cache[i]) == RuleOf(s.cache[i]) && t.cache[i].enabled == s.cache[i].enabled
    ensures s.hw.rules.Values <= t.hw.rules.Values
  {
    forall r | r in s.hw.rules.Values ensures r in t.hw.rules.Values {
      var h :| h in s.hw.rules && s.hw.rules[h] == r;
      assert h !in Orphans(s);
      var i :| 0 <= i < |s.cache| && s.cache[i].enabled && s.cache[i].hdl == h;
      assert t.hw.rules[t.cache[i].hdl] == r;
    }
  }

  // -------------------------------------------------- a client leaves and returns

  /** With granted calls if there is a table, and without a table always, a departing client's
      rules leave the hardware while all cached keys stay. */
  lemma ClientLeaves(s: State, ip: nat)
    requires Inv(s) && Orphans(s) == {} && ip != 0
    requires s.hw.table ==> s.tbl != 0 && Granted(s.hw.fate, s.hw.calls, DelEntriesOnClntDiscon(s, ip).s.hw.calls)
    ensures var t := DelEntriesOnClntDiscon(s, ip).s;
      && Inv(t) && Orphans(t) == {} && t.temp == s.temp && t.curCnt == s.curCnt && t.pubIp == s.pubIp
      && t.tbl == s.tbl && t.hw.table == s.hw.table
      && |t.cache| == |s.cache| && (forall i | 0 <= i < |s.cache| :: RuleOf(t.cache[i]) == RuleOf(s.cache[i]))
      && (forall i | 0 <= i < |t.cache| :: t.cache[i].enabled <==> s.cache[i].enabled && t.cache[i].key.privateIp != ip)
      && (forall h | h in t.hw.rules :: t.hw.rules[h].key.privateIp != ip)
  {
    var s1 := s.(pwrSave := ReplaceFirst(s.pwrSave, ip, 0));
    SweepSlots(s1, 0, Leave(ip));
    SweepKeeps(s1, 0, Leave(ip));
    var t := DelEntriesOnClntDiscon(s, ip).s;
    forall i | 0 <= i < |s.cache|
      ensures RuleOf(t.cache[i]) == RuleOf(s.cache[i])
      ensures t.cache[i].enabled <==> s.cache[i].enabled && t.cache[i].key.privateIp != ip
    {
      assert SlotAfter(s1.cache[i], t.cache[i], Leave(ip));
      assert s.hw.table ==> SlotDone(s1.cache[i], t.cache[i], Leave(ip));
    }
    OccupiedSameKeys(s.cache, t.cache);
    forall h | h in t.hw.rules ensures t.hw.rules[h].key.privateIp != ip {
      RuleOwner(t, h);
    }
  }

  /** A returning client gets every cached rule back if the driver grants the calls and there
      is a table handle; without one, its disabled cached rules are erased instead. */
  lemma ClientReturns(s: State, ip: nat)
    requires Inv(s) && ip != 0
    ensures var t := ResetPwrSaveIf(s, ip);
      && Inv(t) && |t.cache| == |s.cache| && t.tbl == s.tbl && t.temp == s.temp && t.pubIp == s.pubIp
      && (s.tbl != 0 && Granted(s.hw.fate, s.hw.calls, t.hw.calls) ==>
            && t.curCnt == s.curCnt
            && forall i | 0 <= i < |s.cache| :: RuleOf(t.cache[i]) == RuleOf(s.cache[i])
                 && (t.cache[i].enabled <==> s.cache[i].enabled || t.cache[i].key.privateIp == ip))
      && (s.tbl == 0 ==> forall i | 0 <= i < |s.cache| ::
            t.cache[i] == if s.cache[i].key.privateIp == ip && !s.cache[i].enabled then ZERO_ENTRY else s.cache[i])
  {
    var s1 := s.(pwrSave := ReplaceFirst(s.pwrSave, ip, 0));
    SweepSlots(s1, 0, Wake(ip));
    SweepKeeps(s1, 0, Wake(ip));
    var t := ResetPwrSaveIf(s, ip);
    if s.tbl != 0 && Granted(s.hw.fate, s.hw.calls, t.hw.calls) {
      forall i | 0 <= i < |s.cache|
        ensures RuleOf(t.cache[i]) == RuleOf(s.cache[i])
        ensures t.cache[i].enabled <==> s.cache[i].enabled || t.cache[i].key.privateIp == ip
      {
        assert SlotDone(s1.cache[i], t.cache[i], Wake(ip));
      }
      OccupiedSameKeys(s.cache, t.cache);
    }
    if s.tbl == 0 {
      WakeWithoutTable(s1, 0, ip);
    }
  }

  lemma {:induction false} WakeWithoutTable(s: State, i: nat, ip: nat)
    requires i <= |s.cache| && s.tbl == 0 && ip != 0
    ensures var t := SweepFrom(s, i, Wake(ip));
      && (forall j | 0 <= j < i :: t.cache[j] == s.cache[j])
      && forall j | i <= j < |s.cache| ::
           t.cache[j] == if s.cache[j].key.privateIp == ip && !s.cache[j].enabled then ZERO_ENTRY else s.cache[j]
    decreases |s.cache| - i
  {
    if i < |s.cache| {
      WakeWithoutTable(Touch(s, i, Wake(ip)), i + 1, ip);
    }
  }

  /** Every disabled cached connection of `ip` gets its rule: none needs one, or there is a
      handle and the driver grants as many calls as there are such connections. */
  ghost predicate Reinstalls(s: State, ip: nat) {
    var n := Asks(s.cache, 0, |s.cache|, Wake(ip));
    n == 0 || (s.tbl != 0 && Granted(s.hw.fate, s.hw.calls, s.hw.calls + n))
  }

  /** Exactly when a returning client keeps its cached connections, for every driver answer; they
      are all in the hardware then. */
  lemma ReturnKeepsIff(s: State, ip: nat)
    requires Inv(s) && ip != 0
    ensures var t := ResetPwrSaveIf(s, ip);
      && Inv(t) && |t.cache| == |s.cache|
      && (forall i | 0 <= i < |s.cache| && s.cache[i].key.privateIp != ip :: t.cache[i] == s.cache[i])
      && (forall i | 0 <= i < |s.cache| && s.cache[i].key.privateIp == ip ::
            t.cache[i] == ZERO_ENTRY || (t.cache[i].enabled && RuleOf(t.cache[i]) == RuleOf(s.cache[i])))
      && (Reinstalls(s, ip) <==> forall i | 0 <= i < |s.cache| && s.cache[i].key.privateIp == ip :: t.cache[i] != ZERO_ENTRY)
  {
    ReturnSlots(s, ip);
    var t := ResetPwrSaveIf(s, ip);
    hide ResetPwrSaveIf, Inv, Asks, Takes, Reinstalls;
    KeepsOrErases(s, t, ip);
    if !Reinstalls(s, ip) {
      var j := RefusedReturn(s, ip);
      SlotHit(s.cache[j], ip);
      assert t.cache[j] == ZERO_ENTRY;
    } else {
      forall i | 0 <= i < |s.cache| && s.cache[i].key.privateIp == ip ensures t.cache[i] != ZERO_ENTRY {
        TakesInTurn(s, ip, i);
      }
    }
  }

  ghost predicate AllReturned(s: State, t: State, ip: nat) {
    |t.cache| == |s.cache| && forall i | 0 <= i < |s.cache| ::
      ReturnedSlot(s, s.cache[i], t.cache[i], ip, Asks(s.cache, 0, i, Wake(ip)))
  }

  lemma ReturnSlots(s: State, ip: nat)
    requires Inv(s) && ip != 0
    ensures Inv(ResetPwrSaveIf(s, ip)) && AllReturned(s, ResetPwrSaveIf(s, ip), ip)
  {
    var s1 := s.(pwrSave := ReplaceFirst(s.pwrSave, ip, 0));
    SweepExact(s1, 0, Wake(ip));
    SweepKeeps(s1, 0, Wake(ip));
    var t := ResetPwrSaveIf(s, ip);
    hide SweepFrom, ResetPwrSaveIf, Inv, Hit, Asks, ReturnedSlot;
    forall i | 0 <= i < |s.cache| ensures ReturnedSlot(s, s.cache[i], t.cache[i], ip, Asks(s.cache, 0, i, Wake(ip))) {
      SlotReturns(s, s1, t, ip, i);
    }
  }

  lemma KeepsOrErases(s: State, t: State, ip: nat)
    requires AllReturned(s, t, ip)
    ensures forall i | 0 <= i < |s.cache| && s.cache[i].key.privateIp != ip :: t.cache[i] == s.cache[i]
    ensures forall i | 0 <= i < |s.cache| && s.cache[i].key.privateIp == ip ::
      t.cache[i] == ZERO_ENTRY || (t.cache[i].enabled && RuleOf(t.cache[i]) == RuleOf(s.cache[i]))
  {
    hide Asks, Takes;
    forall i | 0 <= i < |s.cache|
      ensures s.cache[i].key.privateIp != ip ==> t.cache[i] == s.cache[i]
      ensures s.cache[i].key.privateIp == ip ==>
        t.cache[i] == ZERO_ENTRY || (t.cache[i].enabled && RuleOf(t.cache[i]) == RuleOf(s.cache[i]))
    {
      assert ReturnedSlot(s, s.cache[i], t.cache[i], ip, Asks(s.cache, 0, i, Wake(ip)));
    }
  }

  /** What becomes of a slot when client `ip` returns, if `n` questions are asked before it. */
  ghost predicate ReturnedSlot(s: State, a: Entry, b: Entry, ip: nat, n: nat) {
    if a.key.privateIp != ip || a.enabled then b == a
    else if Takes(s, s.hw.calls + n) then b == a.(enabled := true, hdl := b.hdl)
    else b == ZERO_ENTRY
  }

  lemma SlotReturns(s: State, s1: State, t: State, ip: nat, i: nat)
    requires s1 == s.(pwrSave := s1.pwrSave) && SweptExactly(s1, t, 0, Wake(ip)) && i < |s.cache|
    ensures ReturnedSlot(s, s.cache[i], t.cache[i], ip, Asks(s.cache, 0, i, Wake(ip)))
  {
    if Hit(s1.cache[i], Wake(ip)) {
      assert Answered(s1, s1.cache[i], t.cache[i], s1.hw.calls + Asks(s1.cache, 0, i, Wake(ip)), Wake(ip));
    }
  }

  lemma SlotHit(e: Entry, ip: nat)
    requires Hit(e, Wake(ip))
    ensures e.key.privateIp == ip && !e.enabled
  {
  }

  lemma TakesInTurn(s: State, ip: nat, i: nat)
    requires Inv(s) && ip != 0 && Reinstalls(s, ip) && i < |s.cache| && s.cache[i].key.privateIp == ip
    ensures s.cache[i] != ZERO_ENTRY && (s.cache[i].enabled || Takes(s, s.hw.calls + Asks(s.cache, 0, i, Wake(ip))))
  {
    if Hit(s.cache[i], Wake(ip)) {
      AsksBelow(s.cache, 0, i, Wake(ip));
    }
  }

  lemma RefusedReturn(s: State, ip: nat) returns (j: nat)
    requires Inv(s) && !Reinstalls(s, ip)
    ensures j < |s.cache| && Hit(s.cache[j], Wake(ip)) && !Takes(s, s.hw.calls + Asks(s.cache, 0, j, Wake(ip)))
  {
    var n := Asks(s.cache, 0, |s.cache|, Wake(ip));
    var k: nat := 0;
    if s.tbl != 0 {
      var m: nat :| s.hw.calls <= m < s.hw.calls + n && !s.hw.fate(m).ok;
      k := m - s.hw.calls;
    }
    j := AskedSlot(s.cache, 0, Wake(ip), k);
  }

  // --------------------------------------------------------------- single operations

  /** The public address of a created table is the one address it can be deleted under. Deleting
      it forgets the table and remembers the address; a refused deletion changes nothing but the
      number of calls. */
  lemma UpThenDown(s: State, ip: nat, other: nat)
    requires Inv(s) && AddTable(s, ip).ret == 0
    ensures var t := AddTable(s, ip).s;
      var o := DeleteTable(t, other);
      && t.pubIp == ip && t.tbl != 0 && t.hw.table && t.pubIpPre == s.pubIpPre
      && (o.ret == 0 <==> other == ip && t.hw.fate(t.hw.calls).ok)
      && (o.ret == 0 ==> Forgotten(t, o.s) && o.s.pubIpPre == ip)
      && (o.ret != 0 ==> o.s == t.(hw := t.hw.(calls := o.s.hw.calls)))
  {
    AddTableKeeps(s, ip);
    var r := CreateTable(s.hw);
    var s1 := s.(hw := r.hw, tbl := r.hdl);
    SweepSlots(s1, 0, Restore);
  }

  /** No table, no public address and no rule; every cached connection is kept, none is enabled. */
  ghost predicate Forgotten(s: State, t: State) {
    && t.tbl == 0 && t.pubIp == 0 && !t.hw.table && t.hw.rules == map[] && t.temp == s.temp && t.pwrSave == s.pwrSave
    && t.curCnt == s.curCnt && |t.cache| == |s.cache|
    && forall i | 0 <= i < |s.cache| :: t.cache[i] == s.cache[i].(enabled := false)
  }

  /** Putting a client to sleep lists it exactly when it was listed or a list slot is free;
      waking it or its departure takes it off the list. */
  lemma PowerSaveLists(s: State, ip: nat)
    requires Inv(s) && Distinct(s.pwrSave) && ip != 0
    ensures Sleeping(UpdatePwrSaveIf(s, ip).s, ip) <==> ip in s.pwrSave || 0 in s.pwrSave
    ensures !Sleeping(ResetPwrSaveIf(s, ip), ip) && !Sleeping(DelEntriesOnClntDiscon(s, ip).s, ip)
  {
    var a := ReplaceFirst(s.pwrSave, 0, ip);
    var j := FirstOf(s.pwrSave, 0, 0);
    if j < |s.pwrSave| {
      assert a[j] == ip;
    }
    SweepSlots(s.(pwrSave := a), 0, Sleep(ip));
    Unlisted(s.pwrSave, ip);
    SweepSlots(s.(pwrSave := ReplaceFirst(s.pwrSave, ip, 0)), 0, Wake(ip));
    SweepSlots(s.(pwrSave := ReplaceFirst(s.pwrSave, ip, 0)), 0, Leave(ip));
  }

  /** A departing STA client: with granted calls if there is a table, and without a table always,
      no slot targets it any more, all other slots stay, and the count drops by exactly the
      slots that were removed. */
  lemma StaClientLeaves(s: State, ip: nat)
    requires Inv(s) && ip != 0
    requires s.hw.table ==> s.tbl != 0 && Granted(s.hw.fate, s.hw.calls, DelEntriesOnSTAClntDiscon(s, ip).s.hw.calls)
    ensures var t := DelEntriesOnSTAClntDiscon(s, ip).s;
      && |t.cache| == |s.cache|
      && (forall i | 0 <= i < |s.cache| :: t.cache[i] == if s.cache[i].key.targetIp == ip then ZERO_ENTRY else s.cache[i])
      && s.curCnt - t.curCnt == Lost(s.cache, t.cache)
      && (Orphans(s) == {} ==> forall h | h in t.hw.rules :: t.hw.rules[h].key.targetIp != ip)
  {
    SweepSlots(s, 0, StaLeave(ip));
    SweepKeeps(s, 0, StaLeave(ip));
    var t := DelEntriesOnSTAClntDiscon(s, ip).s;
    forall i | 0 <= i < |s.cache| ensures t.cache[i] == if s.cache[i].key.targetIp == ip then ZERO_ENTRY else s.cache[i] {
      assert SlotAfter(s.cache[i], t.cache[i], StaLeave(ip));
      assert s.hw.table ==> SlotDone(s.cache[i], t.cache[i], StaLeave(ip));
    }
    LostCount(s.cache, t.cache);
    if Orphans(s) == {} {
      forall h | h in t.hw.rules ensures t.hw.rules[h].key.targetIp != ip {
        RuleOwner(t, h);
      }
    }
  }

  /** What it takes for a new connection to enter the cache. */
  ghost predicate Enters(s: State, e: Entry) {
    && s.tbl != 0 && !UsesAlgPort(s, e.key) && !HasKey(s.cache, e.key) && HasKey(s.cache, ZERO_KEY)
    && (Sleeping(s, e.key.privateIp) || Sleeping(s, e.key.targetIp) || s.hw.fate(s.hw.calls).ok)
  }

  /** `d` is `c` with empty slot `i` filled by `e`. */
  ghost predicate Filled(c: seq<Entry>, d: seq<Entry>, i: nat, e: Entry) {
    && i < |c| == |d| && c[i].key == ZERO_KEY && d == c[i := d[i]]
    && RuleOf(d[i]) == RuleOf(e) && d[i].dstNat == e.dstNat && d[i].timestamp == 0
  }

  /** Exactly when a new connection enters the cache, and whether it reaches the hardware. */
  lemma AddEntryAccepts(s: State, e: Entry) returns (i: nat)
    requires Inv(s) && FullKey(e.key)
    ensures var o := AddEntry(s, e);
      && (o.ret == 0 <==> Enters(s, e))
      && (HasKey(o.s.cache, e.key) <==> HasKey(s.cache, e.key) || Enters(s, e))
      && (Enters(s, e) ==> Filled(s.cache, o.s.cache, i, e))
      && (Enters(s, e) ==> (o.s.cache[i].enabled <==> !Sleeping(s, e.key.privateIp) && !Sleeping(s, e.key.targetIp)))
      && (Enters(s, e) ==> o.s.cache[i].publicIp == s.cache[i].publicIp && o.s.curCnt == s.curCnt + 1)
  {
    var o := AddEntry(s, e);
    i := FirstKey(s.cache, ZERO_KEY, 0);
    if o.ret == 0 {
      assert o.s.cache[i].key == e.key;
    } else if HasKey(s.cache, e.key) {
      var j :| 0 <= j < |s.cache| && s.cache[j].key == e.key;
      assert o.s.cache[j].key == e.key;
    } else {
      assert forall j | 0 <= j < |s.cache| :: o.s.cache[j].key == s.cache[j].key;
    }
  }

  /** Exactly when a connection is cached while the WAN is down; it never reaches the hardware. */
  lemma CacheEntryAccepts(s: State, e: Entry) returns (i: nat)
    requires Inv(s) && FullKey(e.key)
    ensures var t := CacheEntry(s, e);
      && (HasKey(t.cache, e.key) <==> HasKey(s.cache, e.key) || HasKey(s.cache, ZERO_KEY))
      && t.hw == s.hw && t.temp == s.temp
      && (t != s ==> Filled(s.cache, t.cache, i, e) && !t.cache[i].enabled && t.cache[i].publicIp == e.publicIp)
  {
    i := FirstKey(s.cache, ZERO_KEY, 0);
    var t := CacheEntry(s, e);
    if !HasKey(s.cache, e.key) && HasKey(s.cache, ZERO_KEY) {
      assert i < |s.cache| && t.cache[i].key == e.key;
    }
  }

  /** A timestamp that conntrack accepted is remembered: the same one is not sent again. */
  lemma StampOnce(s: State, i: nat, q: Stamp, again: bool)
    ensures var t := StampSlot(s, i, q, true); StampSlot(t, i, q, again) == t
    ensures StampDeletes(s, i, q, false) ==> StampSlot(s, i, q, true).cache[i].timestamp == q.ts
  {
  }
}
