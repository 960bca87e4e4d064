/** What every NatApp operation keeps, whatever the driver answers, and what
    therefore holds in every run. */
module NatInvariants {
  import opened NatTypes
  import opened NatHardware
  import opened NatSpec

  // ------------------------------------------------------------ the invariant

  /** Key fields are all zero or all non-zero, and only a full slot is enabled. */
  ghost predicate WellKeyed(c: seq<Entry>) {
    forall i | 0 <= i < |c| ::
      && (c[i].key == ZERO_KEY || FullKey(c[i].key))
      && (c[i].enabled ==> c[i].key != ZERO_KEY)
  }

  ghost predicate DistinctKeys(c: seq<Entry>) {
    forall i, j | 0 <= i < j < |c| :: c[i].key == c[j].key ==> c[i].key == ZERO_KEY
  }

  /** Each enabled slot's handle is live and names a rule with that slot's fields. */
  ghost predicate Mirrored(c: seq<Entry>, rules: map<nat, Rule>) {
    && (forall i | 0 <= i < |c| :: c[i].enabled ==> c[i].hdl in rules && rules[c[i].hdl] == RuleOf(c[i]))
    && (forall i, j | 0 <= i < j < |c| :: c[i].enabled && c[j].enabled ==> c[i].hdl != c[j].hdl)
  }

  ghost predicate TableOk(tbl: nat, hw: Hw) {
    && (tbl != 0 ==> hw.table)
    && (!hw.table ==> hw.rules == map[])
    && 0 !in hw.rules
  }

  ghost predicate Inv(s: State) {
    && |s.temp| == MAX_TEMP_ENTRIES && |s.pwrSave| == MAX_WIFI_CLIENTS
    && WellKeyed(s.cache)
    && DistinctKeys(s.cache)
    && Mirrored(s.cache, s.hw.rules)
    && TableOk(s.tbl, s.hw)
  }

  // ------------------------------------------------- quantities tracked in runs

  ghost predicate Owned(c: seq<Entry>, h: nat) {
    exists i :: 0 <= i < |c| && c[i].enabled && c[i].hdl == h
  }

  /** Live hardware rules that no enabled slot owns. */
  ghost function Orphans(s: State): set<nat> {
    set h | h in s.hw.rules && !Owned(s.cache, h)
  }

  ghost function Occupied(c: seq<Entry>): nat {
    if c == [] then 0
    else Occupied(c[..|c| - 1]) + if c[|c| - 1].key != ZERO_KEY then 1 else 0
  }

  /** By how much the occupied slots outnumber the count the source keeps. */
  ghost function Debt(s: State): int { Occupied(s.cache) - s.curCnt }

  lemma {:induction false} OccupiedUpdate(c: seq<Entry>, i: nat, e: Entry)
    requires i < |c|
    ensures Occupied(c[i := e]) == Occupied(c)
      - (if c[i].key != ZERO_KEY then 1 else 0) + (if e.key != ZERO_KEY then 1 else 0)
  {
    var n := |c| - 1;
    if i == n {
      assert c[i := e][..n] == c[..n];
    } else {
      assert c[i := e][..n] == c[..n][i := e];
      OccupiedUpdate(c[..n], i, e);
    }
  }

  lemma {:induction false} OccupiedSameKeys(c: seq<Entry>, d: seq<Entry>)
    requires |c| == |d| && forall i | 0 <= i < |c| :: c[i].key == d[i].key
    ensures Occupied(c) == Occupied(d)
  {
    if c != [] {
      OccupiedSameKeys(c[..|c| - 1], d[..|d| - 1]);
    }
  }

  /** What an operation that neither leaks nor miscounts preserves. */
  ghost predicate Kept(s: State, t: State) {
    && Inv(t) && |t.cache| == |s.cache|
    && Orphans(t) == Orphans(s)
    && Debt(t) == Debt(s)
    && t.hw.fate == s.hw.fate && t.hw.calls >= s.hw.calls
  }

  // ------------------------------------------------------------ one-slot lemmas

  lemma InstallKeeps(s: State, i: nat)
    requires Inv(s) && i < |s.cache| && s.cache[i].key != ZERO_KEY && !s.cache[i].enabled
    ensures Kept(s, Install(s, i))
  {
    var t := Install(s, i);
    OccupiedUpdate(s.cache, i, t.cache[i]);
    forall h ensures h in Orphans(t) <==> h in Orphans(s) {
      OwnedUpdate(s.cache, i, t.cache[i], h);
    }
  }

  /** Ownership after writing one slot that was not enabled, or whose handle is not `h`. */
  lemma OwnedUpdate(c: seq<Entry>, i: nat, e: Entry, h: nat)
    requires i < |c|
    ensures (!c[i].enabled || c[i].hdl != h) && (!e.enabled || e.hdl != h) ==> (Owned(c[i := e], h) <==> Owned(c, h))
    ensures e.enabled && e.hdl == h ==> Owned(c[i := e], h)
  {
    var d := c[i := e];
    if e.enabled && e.hdl == h {
      assert d[i].enabled && d[i].hdl == h;
    } else if !c[i].enabled || c[i].hdl != h {
      if Owned(c, h) {
        var j :| 0 <= j < |c| && c[j].enabled && c[j].hdl == h;
        assert d[j] == c[j];
      }
    }
  }

  /** Clearing or disabling slot `i` together with its hardware rule. */
  lemma RemoveKeeps(s: State, i: nat, e: Entry, hw: Hw, cnt: int)
    requires Inv(s) && i < |s.cache| && s.cache[i].enabled
    requires !e.enabled && (e.key == s.cache[i].key || e.key == ZERO_KEY)
    requires hw == s.hw.(rules := s.hw.rules - {s.cache[i].hdl}, calls := s.hw.calls + 1)
    requires cnt == s.curCnt - if e.key == ZERO_KEY then 1 else 0
    ensures Kept(s, s.(cache := s.cache[i := e], hw := hw, curCnt := cnt))
  {
    var t := s.(cache := s.cache[i := e], hw := hw, curCnt := cnt);
    OccupiedUpdate(s.cache, i, e);
    forall h ensures h in Orphans(t) <==> h in Orphans(s) {
      OwnedUpdate(s.cache, i, e, h);
    }
  }

  /** Writing a slot that is disabled before and after. */
  lemma QuietWriteKeeps(s: State, i: nat, e: Entry, cnt: int)
    requires Inv(s) && i < |s.cache| && !s.cache[i].enabled && !e.enabled
    requires e.key == s.cache[i].key || e.key == ZERO_KEY || (FullKey(e.key) && !HasKey(s.cache, e.key))
    requires cnt == s.curCnt + (if e.key != ZERO_KEY then 1 else 0) - (if s.cache[i].key != ZERO_KEY then 1 else 0)
    ensures Kept(s, s.(cache := s.cache[i := e], curCnt := cnt))
  {
    var t := s.(cache := s.cache[i := e], curCnt := cnt);
    OccupiedUpdate(s.cache, i, e);
    forall h ensures h in Orphans(t) <==> h in Orphans(s) {
      OwnedUpdate(s.cache, i, e, h);
    }
  }

  // --------------------------------------------------------------- cache sweeps

  ghost predicate Sound(s: State, i: nat, w: Sweep) {
    match w
    case Restore => forall j | i <= j < |s.cache| :: !s.cache[j].enabled
    case _ => w.ip != 0
  }

  lemma TouchKeeps(s: State, i: nat, w: Sweep)
    requires Inv(s) && i < |s.cache| && Sound(s, i, w)
    ensures Kept(s, Touch(s, i, w))
    ensures Sound(Touch(s, i, w), i + 1, w)
  {
    if Hit(s.cache[i], w) {
      match w
      case Restore => InstallKeeps(s, i);
      case Wake(_) => InstallKeeps(s, i);
      case Sleep(_) => WithdrawKeeps(s, i, true);
      case Leave(_) => WithdrawKeeps(s, i, false);
      case StaLeave(_) =>
        var r := RemoveRule(s.hw, s.tbl, s.cache[i].hdl);
        if !s.cache[i].enabled {
          QuietWriteKeeps(s, i, ZERO_ENTRY, s.curCnt - 1);
        } else if r.ok {
          RemoveKeeps(s, i, ZERO_ENTRY, r.hw, s.curCnt - 1);
        }
    }
  }

  lemma WithdrawKeeps(s: State, i: nat, forget: bool)
    requires Inv(s) && i < |s.cache| && s.cache[i].enabled
    ensures Kept(s, Withdraw(s, i, forget))
  {
    var r := RemoveRule(s.hw, s.tbl, s.cache[i].hdl);
    if r.ok {
      RemoveKeeps(s, i, Withdraw(s, i, forget).cache[i], r.hw, s.curCnt);
    }
  }

  lemma {:induction false} SweepKeeps(s: State, i: nat, w: Sweep)
    requires Inv(s) && i <= |s.cache| && Sound(s, i, w)
    ensures Kept(s, SweepFrom(s, i, w))
    decreases |s.cache| - i
  {
    if i < |s.cache| {
      TouchKeeps(s, i, w);
      SweepKeeps(Touch(s, i, w), i + 1, w);
    }
  }

  // ------------------------------------------------------------------ insertion

  /** Filling an empty slot together with a new hardware rule. */
  lemma InsertKeeps(s: State, c: nat, e: Entry)
    requires Inv(s) && c < |s.cache| && s.cache[c].key == ZERO_KEY
    requires FullKey(e.key) && !HasKey(s.cache, e.key) && InsertRule(s.hw, s.tbl, RuleOf(e)).ok
    ensures var r := InsertRule(s.hw, s.tbl, RuleOf(e));
      Kept(s, s.(hw := r.hw, cache := s.cache[c := Stored(e, s.cache[c], true, r.hdl)], curCnt := s.curCnt + 1))
  {
    var r := InsertRule(s.hw, s.tbl, RuleOf(e));
    var f := Stored(e, s.cache[c], true, r.hdl);
    var t := s.(hw := r.hw, cache := s.cache[c := f], curCnt := s.curCnt + 1);
    OccupiedUpdate(s.cache, c, f);
    forall h ensures h in Orphans(t) <==> h in Orphans(s) {
      OwnedUpdate(s.cache, c, f, h);
    }
  }

  lemma AddEntryKeeps(s: State, e: Entry)
    requires Inv(s)
    ensures Kept(s, AddEntry(s, e).s)
  {
    var o := AddEntry(s, e);
    var c := FirstKey(s.cache, ZERO_KEY, 0);
    if o.s != s {
      assert !HasKey(s.cache, e.key);
      var r := InsertRule(s.hw, s.tbl, RuleOf(e));
      if Sleeping(s, e.key.privateIp) || Sleeping(s, e.key.targetIp) {
        QuietWriteKeeps(s, c, Stored(e, s.cache[c], false, 0), s.curCnt + 1);
      } else if r.ok {
        InsertKeeps(s, c, e);
      } else {
        QuietWriteKeeps(s, c, s.cache[c].(hdl := r.hdl), s.curCnt);
      }
    }
  }

  lemma CacheEntryKeeps(s: State, e: Entry)
    requires Inv(s)
    ensures Kept(s, CacheEntry(s, e))
  {
    var c := FirstKey(s.cache, ZERO_KEY, 0);
    if CacheEntry(s, e) != s {
      assert !HasKey(s.cache, e.key);
      QuietWriteKeeps(s, c, Stored(e, e, false, 0), s.curCnt + 1);
    }
  }

  lemma FlushSlotKeeps(s: State, i: nat, ip: nat, isAdd: bool, isDummy: bool)
    requires Inv(s) && i < |s.temp|
    ensures Kept(s, FlushSlot(s, i, ip, isAdd, isDummy))
  {
    if Mentions(s.temp[i], ip) && isAdd && s.temp[i].publicIp == s.pubIp {
      var e := Dummied(s.temp[i], isDummy);
      AddEntryKeeps(s.(temp := s.temp[i := e]), e);
    }
  }

  lemma {:induction false} FlushKeeps(s: State, i: nat, ip: nat, isAdd: bool, isDummy: bool)
    requires Inv(s) && i <= |s.temp|
    ensures Kept(s, FlushFrom(s, i, ip, isAdd, isDummy))
    decreases |s.temp| - i
  {
    if i < |s.temp| {
      FlushSlotKeeps(s, i, ip, isAdd, isDummy);
      FlushKeeps(FlushSlot(s, i, ip, isAdd, isDummy), i + 1, ip, isAdd, isDummy);
    }
  }

  // ------------------------------------------------------------------- deletion

  /** The handle that deleting `k` leaves behind in the hardware, if any. */
  ghost function LeakedBy(s: State, k: Key): set<nat> {
    var c := FirstKey(s.cache, k, 0);
    if c < |s.cache| && s.cache[c].enabled && !RemoveRule(s.hw, s.tbl, s.cache[c].hdl).ok
    then {s.cache[c].hdl} else {}
  }

  /** Deleting the zero key hits an empty slot and still lowers the count. */
  ghost function PhantomBy(s: State, k: Key): nat {
    if k == ZERO_KEY && HasKey(s.cache, ZERO_KEY) then 1 else 0
  }

  lemma EraseOrphans(s: State, k: Key)
    requires Inv(s)
    ensures Orphans(DeleteEntry(s, k)) == Orphans(s) + LeakedBy(s, k)
  {
    var c := FirstKey(s.cache, k, 0);
    var t := DeleteEntry(s, k);
    if c < |s.cache| {
      forall h ensures h in Orphans(t) <==> h in Orphans(s) + LeakedBy(s, k) {
        OwnedUpdate(s.cache, c, ZERO_ENTRY, h);
      }
    }
  }

  lemma EraseInv(s: State, k: Key)
    requires Inv(s)
    ensures Inv(DeleteEntry(s, k)) && (k != ZERO_KEY ==> !HasKey(DeleteEntry(s, k).cache, k))
  {
  }

  lemma DeleteEntryExact(s: State, k: Key)
    requires Inv(s)
    ensures var t := DeleteEntry(s, k);
      && Inv(t) && |t.cache| == |s.cache|
      && t.hw.fate == s.hw.fate && t.hw.calls >= s.hw.calls
      && Orphans(t) == Orphans(s) + LeakedBy(s, k)
      && Debt(t) == Debt(s) + PhantomBy(s, k)
      && (k != ZERO_KEY ==> !HasKey(t.cache, k))
  {
    EraseInv(s, k);
    EraseOrphans(s, k);
    var c := FirstKey(s.cache, k, 0);
    hide Inv, Orphans, LeakedBy;
    if c < |s.cache| {
      OccupiedUpdate(s.cache, c, ZERO_ENTRY);
    }
  }

  // --------------------------------------------------------------------- tables

  lemma AddTableKeeps(s: State, ip: nat)
    requires Inv(s)
    ensures Kept(s, AddTable(s, ip).s)
  {
    var r := CreateTable(s.hw);
    var s1 := s.(hw := r.hw, tbl := r.hdl);
    assert Kept(s, s1);
    if r.ok && ip == s.pubIpPre {
      SweepKeeps(s1, 0, Restore);
    }
  }

  lemma DeleteTableExact(s: State, ip: nat)
    requires Inv(s)
    ensures var o := DeleteTable(s, ip);
      && Inv(o.s) && |o.s.cache| == |s.cache| && o.s.hw.fate == s.hw.fate && o.s.hw.calls >= s.hw.calls
      && Debt(o.s) == Debt(s)
      && Orphans(o.s) == (if o.ret == 0 then {} else Orphans(s))
  {
    OccupiedSameKeys(s.cache, AllDisabled(s.cache));
  }

  // --------------------------------------------------------------------- runs

  /** Orphans after `op`, given those before: deletions may add, dropping the table clears. */
  ghost function LeakStep(s: State, op: Op, before: set<nat>): set<nat> {
    match op
    case OpDeleteEntry(k) => before + LeakedBy(s, k)
    case OpStamp(i, q, ctOk) => if StampDeletes(s, i, q, ctOk) then before + LeakedBy(s, s.cache[i].key) else before
    case OpDeleteTable(ip) => if DeleteTable(s, ip).ret == 0 then {} else before
    case _ => before
  }

  ghost predicate StampDeletes(s: State, i: nat, q: Stamp, ctOk: bool) {
    && i < |s.cache| && s.cache[i].enabled && s.cache[i].key.privateIp != s.cache[i].publicIp
    && q.At? && s.cache[i].timestamp != q.ts && !ctOk
  }

  ghost function PhantomStep(s: State, op: Op): nat {
    if op.OpDeleteEntry? then PhantomBy(s, op.k) else 0
  }

  lemma TimestampKeeps(s: State, i: nat, ts: nat)
    requires Inv(s) && i < |s.cache|
    ensures Kept(s, s.(cache := s.cache[i := s.cache[i].(timestamp := ts)]))
  {
    var t := s.(cache := s.cache[i := s.cache[i].(timestamp := ts)]);
    OccupiedUpdate(s.cache, i, t.cache[i]);
    forall h ensures Owned(t.cache, h) <==> Owned(s.cache, h) {
      if Owned(s.cache, h) {
        var j :| 0 <= j < |s.cache| && s.cache[j].enabled && s.cache[j].hdl == h;
        assert t.cache[j].enabled && t.cache[j].hdl == h;
      }
      if Owned(t.cache, h) {
        var j :| 0 <= j < |t.cache| && t.cache[j].enabled && t.cache[j].hdl == h;
        assert s.cache[j].enabled && s.cache[j].hdl == h;
      }
    }
  }

  lemma StampExact(s: State, i: nat, q: Stamp, ctOk: bool)
    requires Inv(s)
    ensures var t := StampSlot(s, i, q, ctOk);
      && Inv(t) && |t.cache| == |s.cache| && t.hw.fate == s.hw.fate && t.hw.calls >= s.hw.calls
      && Orphans(t) == LeakStep(s, OpStamp(i, q, ctOk), Orphans(s))
      && Debt(t) == Debt(s)
  {
    if StampDeletes(s, i, q, ctOk) {
      DeleteEntryExact(s, s.cache[i].key);
    } else if i < |s.cache| && q.At? {
      TimestampKeeps(s, i, q.ts);
    }
  }

  /** One operation, any driver answers: the invariant survives, and the orphaned rules and
      the miscount change by exactly what that operation leaks and miscounts. */
  lemma ApplyExact(s: State, op: Op)
    requires Inv(s)
    ensures var t := Apply(s, op);
      && Inv(t) && |t.cache| == |s.cache| && t.hw.fate == s.hw.fate && t.hw.calls >= s.hw.calls
      && Orphans(t) == LeakStep(s, op, Orphans(s))
      && Debt(t) == Debt(s) + PhantomStep(s, op)
  {
    hide AddTable, DeleteTable, AddEntry, DeleteEntry, CacheEntry, SweepFrom, FlushFrom, StampSlot;
    match op
    case OpAddTable(ip) => AddTableKeeps(s, ip);
    case OpDeleteTable(ip) => DeleteTableExact(s, ip);
    case OpAddEntry(e) => AddEntryKeeps(s, e);
    case OpDeleteEntry(k) => DeleteEntryExact(s, k);
    case OpCacheEntry(e) => CacheEntryKeeps(s, e);
    case OpUpdatePwrSave(ip) =>
      if ip != 0 && ip !in s.pwrSave {
        SweepKeeps(s.(pwrSave := ReplaceFirst(s.pwrSave, 0, ip)), 0, Sleep(ip));
      }
    case OpResetPwrSave(ip) =>
      if ip != 0 {
        SweepKeeps(s.(pwrSave := ReplaceFirst(s.pwrSave, ip, 0)), 0, Wake(ip));
      }
    case OpClntDiscon(ip) =>
      if ip != 0 {
        SweepKeeps(s.(pwrSave := ReplaceFirst(s.pwrSave, ip, 0)), 0, Leave(ip));
      }
    case OpStaDiscon(ip) =>
      if ip != 0 {
        SweepKeeps(s, 0, StaLeave(ip));
      }
    case OpAddTemp(e) =>
    case OpDeleteTemp(k) =>
    case OpFlush(ip, isAdd, isDummy) => FlushKeeps(s, 0, ip, isAdd, isDummy);
    case OpStamp(i, q, ctOk) => StampExact(s, i, q, ctOk);
  }

  /** Rules leaked by failed deletions since the table was last dropped. */
  ghost function Leaked(s: State, ops: seq<Op>, before: set<nat>): set<nat>
    decreases |ops|
  {
    if ops == [] then before else Leaked(Apply(s, ops[0]), ops[1..], LeakStep(s, ops[0], before))
  }

  ghost function Phantoms(s: State, ops: seq<Op>): nat
    decreases |ops|
  {
    if ops == [] then 0 else PhantomStep(s, ops[0]) + Phantoms(Apply(s, ops[0]), ops[1..])
  }

  /** Every run from every state that satisfies the invariant. */
  lemma {:induction false} RunExact(s: State, ops: seq<Op>)
    requires Inv(s)
    ensures Inv(Run(s, ops)) && |Run(s, ops).cache| == |s.cache|
    ensures Orphans(Run(s, ops)) == Leaked(s, ops, Orphans(s))
    ensures Debt(Run(s, ops)) == Debt(s) + Phantoms(s, ops)
    decreases |ops|
  {
    if ops != [] {
      ApplyExact(s, ops[0]);
      RunExact(Apply(s, ops[0]), ops[1..]);
    }
  }

  lemma {:induction false} OccupiedNone(c: seq<Entry>)
    requires forall i | 0 <= i < |c| :: c[i].key == ZERO_KEY
    ensures Occupied(c) == 0
  {
    if c != [] {
      OccupiedNone(c[..|c| - 1]);
    }
  }

  lemma InitInv(s: State)
    requires Init(s)
    ensures Inv(s) && Orphans(s) == {} && Debt(s) == 0
  {
    OccupiedNone(s.cache);
  }

  /** Safety of every run of a fresh NatApp, with every driver call free to fail: the cache
      mirrors the hardware, the stray hardware rules are exactly those whose deletion the
      driver refused, and the count is off by exactly the zero-key deletions. */
  lemma RunSafe(s: State, ops: seq<Op>)
    requires Init(s)
    ensures var t := Run(s, ops);
      && Inv(t)
      && Orphans(t) == Leaked(s, ops, {})
      && Occupied(t.cache) == t.curCnt + Phantoms(s, ops)
  {
    InitInv(s);
    RunExact(s, ops);
  }

  // ------------------------------------------------------- runs that leak nothing

  /** The driver is reachable and answers the next call with success. */
  ghost predicate Obeys(s: State) { s.tbl != 0 && s.hw.fate(s.hw.calls).ok }

  /** If `op` deletes a connection that is in the hardware, the driver obeys. */
  ghost predicate DeletesGranted(s: State, op: Op) {
    match op
    case OpDeleteEntry(k) => (exists i :: 0 <= i < |s.cache| && s.cache[i].enabled && s.cache[i].key == k) ==> Obeys(s)
    case OpStamp(i, q, ctOk) => StampDeletes(s, i, q, ctOk) ==> Obeys(s)
    case _ => true
  }

  /** Deleting `k` leaks if and only if it is in the hardware and the driver does not obey. */
  lemma LeaksIff(s: State, k: Key)
    requires Inv(s)
    ensures LeakedBy(s, k) == {} <==>
      ((exists i :: 0 <= i < |s.cache| && s.cache[i].enabled && s.cache[i].key == k) ==> Obeys(s))
  {
    var c := FirstKey(s.cache, k, 0);
    if i :| 0 <= i < |s.cache| && s.cache[i].enabled && s.cache[i].key == k {
      assert c == i;
      assert s.cache[c].hdl in s.hw.rules;
      assert RemoveRule(s.hw, s.tbl, s.cache[c].hdl).ok <==> Obeys(s);
    }
  }

  ghost predicate GrantedRun(s: State, ops: seq<Op>)
    decreases |ops|
  {
    ops == [] || (DeletesGranted(s, ops[0]) && GrantedRun(Apply(s, ops[0]), ops[1..]))
  }

  lemma {:induction false} NoLeaks(s: State, ops: seq<Op>)
    requires Inv(s) && GrantedRun(s, ops)
    ensures Leaked(s, ops, {}) == {}
    decreases |ops|
  {
    if ops != [] {
      var op := ops[0];
      if op.OpDeleteEntry? {
        LeaksIff(s, op.k);
      } else if op.OpStamp? && StampDeletes(s, op.i, op.q, op.ctOk) {
        LeaksIff(s, s.cache[op.i].key);
      }
      assert LeakStep(s, op, {}) == {};
      ApplyExact(s, op);
      NoLeaks(Apply(s, op), ops[1..]);
    }
  }
}
