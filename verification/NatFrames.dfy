/** What each NatApp operation leaves alone: the fields it does not touch, the connections it may
    forget, and the contents of a cached connection, which never change while it is cached. */
module NatFrames {
  import opened NatTypes
  import opened NatHardware
  import opened NatSpec
  import opened NatInvariants
  import opened NatProperties
  import opened NatCollision
  import opened NatFlush

  /** The same connection: only the mirror in the hardware and the timestamp may differ. */
  ghost predicate SameConn(a: Entry, b: Entry) { b == a.(enabled := b.enabled, hdl := b.hdl, timestamp := b.timestamp) }

  /** The operations that can forget the connection in slot `i`. */
  ghost predicate MayErase(s: State, op: Op, i: nat)
    requires i < |s.cache|
  {
    match op
    case OpAddTable(ip) => ip == s.pubIpPre
    case OpDeleteEntry(k) => s.cache[i].key == k
    case OpResetPwrSave(ip) => s.cache[i].key.privateIp == ip && !s.cache[i].enabled
    case OpStaDiscon(ip) => s.cache[i].key.targetIp == ip
    case OpStamp(j, _, _) => i == j
    case _ => false
  }

  /** What becomes of slot `i`: an occupied slot keeps its connection or is erased, and only by an
      operation that may; an empty slot is filled only by an insertion or a flush. */
  ghost predicate SlotFrame(s: State, t: State, op: Op, i: nat)
    requires i < |s.cache| == |t.cache|
  {
    var a, b := s.cache[i], t.cache[i];
    if a.key != ZERO_KEY
    then (SameConn(a, b) && (op.OpStamp? || b.timestamp == a.timestamp)) || (b == ZERO_ENTRY && MayErase(s, op, i))
    else
      || b.key == ZERO_KEY || op.OpFlush?
      || (op.OpAddEntry? && RuleOf(b) == RuleOf(op.e) && b.dstNat == op.e.dstNat)
      || (op.OpCacheEntry? && RuleOf(b) == RuleOf(op.e) && b.dstNat == op.e.dstNat && b.publicIp == op.e.publicIp)
  }

  /** The fields that `op` does not touch. */
  ghost predicate FieldFrame(s: State, t: State, op: Op) {
    && t.algPorts == s.algPorts && |t.cache| == |s.cache|
    && (op.OpAddTable? || op.OpDeleteTable? || (t.tbl == s.tbl && t.pubIp == s.pubIp && t.hw.table == s.hw.table))
    && (op.OpDeleteTable? || t.pubIpPre == s.pubIpPre)
    && (op.OpAddTemp? || op.OpDeleteTemp? || op.OpFlush? || t.temp == s.temp)
    && (op.OpUpdatePwrSave? || op.OpResetPwrSave? || op.OpClntDiscon? || t.pwrSave == s.pwrSave)
  }

  ghost predicate Frame(s: State, t: State, op: Op) {
    FieldFrame(s, t, op) && forall i | 0 <= i < |s.cache| :: SlotFrame(s, t, op, i)
  }

  lemma SweptFrame(s: State, s1: State, t: State, op: Op, w: Sweep)
    requires Inv(s) && s1 == s.(pwrSave := s1.pwrSave) && Swept(s1, t, 0, w)
    requires match op
      case OpUpdatePwrSave(ip) => w == Sleep(ip)
      case OpResetPwrSave(ip) => w == Wake(ip)
      case OpClntDiscon(ip) => w == Leave(ip)
      case OpStaDiscon(ip) => w == StaLeave(ip) && s1 == s
      case _ => false
    ensures Frame(s, t, op)
  {
    forall i | 0 <= i < |s.cache| ensures SlotFrame(s, t, op, i) {
      assert SlotAfter(s1.cache[i], t.cache[i], w);
    }
  }

  lemma TableFrame(s: State, op: Op)
    requires Inv(s) && (op.OpAddTable? || op.OpDeleteTable?)
    ensures Frame(s, Apply(s, op), op)
  {
    var t := Apply(s, op);
    if op.OpAddTable? && AddTable(s, op.ip).ret == 0 && op.ip == s.pubIpPre {
      var r := CreateTable(s.hw);
      var s1 := s.(hw := r.hw, tbl := r.hdl);
      SweepSlots(s1, 0, Restore);
      forall i | 0 <= i < |s.cache| ensures SlotFrame(s, t, op, i) {
        assert SlotAfter(s1.cache[i], t.cache[i], Restore);
      }
    }
  }

  lemma FlushFrame(s: State, op: Op)
    requires Inv(s) && op.OpFlush?
    ensures Frame(s, Apply(s, op), op)
  {
    FlushKeepsRules(s, 0, op.ip, op.isAdd, op.isDummy);
    FlushKeepsTemp(s, 0, op.ip, op.isAdd, op.isDummy);
    FlushTable(s, 0, op.ip, op.isAdd, op.isDummy);
    hide FlushFrom;
  }

  lemma {:induction false} FlushTable(s: State, i: nat, ip: nat, isAdd: bool, isDummy: bool)
    requires i <= |s.temp|
    ensures FlushFrom(s, i, ip, isAdd, isDummy).hw.table == s.hw.table && FlushFrom(s, i, ip, isAdd, isDummy).pubIpPre == s.pubIpPre
    decreases |s.temp| - i
  {
    if i < |s.temp| {
      FlushTable(FlushSlot(s, i, ip, isAdd, isDummy), i + 1, ip, isAdd, isDummy);
    }
  }

  lemma AddFrame(s: State, e: Entry)
    requires Inv(s)
    ensures Frame(s, AddEntry(s, e).s, OpAddEntry(e))
  {
    var c := FirstKey(s.cache, ZERO_KEY, 0);
    var t := AddEntry(s, e).s;
    forall i | 0 <= i < |s.cache| ensures SlotFrame(s, t, OpAddEntry(e), i) {
      assert i != c ==> t.cache[i] == s.cache[i];
    }
  }

  lemma CacheFrame(s: State, e: Entry)
    requires Inv(s)
    ensures Frame(s, CacheEntry(s, e), OpCacheEntry(e))
  {
    var c := FirstKey(s.cache, ZERO_KEY, 0);
    var t := CacheEntry(s, e);
    forall i | 0 <= i < |s.cache| ensures SlotFrame(s, t, OpCacheEntry(e), i) {
      assert i != c ==> t.cache[i] == s.cache[i];
    }
  }

  /** A deletion erases one slot with its key, or nothing. */
  lemma DeleteFrame(s: State, k: Key)
    ensures var t := DeleteEntry(s, k);
      && FieldFrame(s, t, OpDeleteEntry(k))
      && forall i | 0 <= i < |s.cache| :: t.cache[i] == s.cache[i] || (s.cache[i].key == k && t.cache[i] == ZERO_ENTRY)
  {
  }

  lemma StampFrame(s: State, op: Op)
    requires Inv(s) && op.OpStamp?
    ensures Frame(s, Apply(s, op), op)
  {
    if StampDeletes(s, op.i, op.q, op.ctOk) {
      DeleteFrame(s, s.cache[op.i].key);
      hide DeleteEntry;
      assert Apply(s, op) == DeleteEntry(s, s.cache[op.i].key);
    }
  }

  lemma PlainFrame(s: State, op: Op)
    requires Inv(s)
    requires op.OpAddEntry? || op.OpDeleteEntry? || op.OpCacheEntry? || op.OpAddTemp? || op.OpDeleteTemp? || op.OpStamp?
    ensures Frame(s, Apply(s, op), op)
  {
    hide AddEntry, CacheEntry, DeleteEntry, StampSlot, Inv;
    match op
    case OpAddEntry(e) => AddFrame(s, e);
    case OpCacheEntry(e) => CacheFrame(s, e);
    case OpDeleteEntry(k) => DeleteFrame(s, k);
    case OpStamp(_, _, _) => StampFrame(s, op);
    case _ =>
  }

  lemma PowerFrame(s: State, op: Op)
    requires Inv(s) && (op.OpUpdatePwrSave? || op.OpResetPwrSave? || op.OpClntDiscon? || op.OpStaDiscon?)
    ensures Frame(s, Apply(s, op), op)
  {
    var t := Apply(s, op);
    if t != s {
      var s1, w := s, Leave(op.ip);
      match op {
        case OpUpdatePwrSave(ip) => s1, w := s.(pwrSave := ReplaceFirst(s.pwrSave, 0, ip)), Sleep(ip);
        case OpResetPwrSave(ip) => s1, w := s.(pwrSave := ReplaceFirst(s.pwrSave, ip, 0)), Wake(ip);
        case OpClntDiscon(ip) => s1 := s.(pwrSave := ReplaceFirst(s.pwrSave, ip, 0));
        case OpStaDiscon(ip) => w := StaLeave(ip);
      }
      SweepSlots(s1, 0, w);
      SweptFrame(s, s1, t, op, w);
    }
  }

  /** Every operation, whatever the driver answers. */
  lemma ApplyFrame(s: State, op: Op)
    requires Inv(s)
    ensures Frame(s, Apply(s, op), op)
  {
    hide Frame, Apply, Inv;
    if op.OpAddTable? || op.OpDeleteTable? { TableFrame(s, op); }
    else if op.OpFlush? { FlushFrame(s, op); }
    else if op.OpUpdatePwrSave? || op.OpResetPwrSave? || op.OpClntDiscon? || op.OpStaDiscon? { PowerFrame(s, op); }
    else { PlainFrame(s, op); }
  }

  // ------------------------------------------------------------------------- runs

  /** No operation of the run may forget the connection in slot `i`. */
  ghost predicate Spares(s: State, ops: seq<Op>, i: nat)
    requires i < |s.cache|
    decreases |ops|
  {
    ops == [] || (!MayErase(s, ops[0], i) && i < |Apply(s, ops[0]).cache| && Spares(Apply(s, ops[0]), ops[1..], i))
  }

  /** A cached connection is the same connection, in the same slot, after every run that spares it,
      whatever the driver answers. */
  lemma {:induction false} ConnectionKept(s: State, ops: seq<Op>, i: nat)
    requires Inv(s) && i < |s.cache| && s.cache[i].key != ZERO_KEY && Spares(s, ops, i)
    ensures |Run(s, ops).cache| == |s.cache| && SameConn(s.cache[i], Run(s, ops).cache[i])
    decreases |ops|
  {
    if ops != [] {
      ApplyExact(s, ops[0]);
      ApplyFrame(s, ops[0]);
      var t := Apply(s, ops[0]);
      assert SlotFrame(s, t, ops[0], i);
      hide Apply, Inv, MayErase;
      ConnectionKept(t, ops[1..], i);
    }
  }

  // --------------------------------------------------------------------- temp list

  /** Offering a connection to the temp list fills one blank slot or changes nothing; deleting one
      empties the first slot with its key or changes nothing. */
  lemma TempFrame(s: State, e: Entry, k: Key)
    ensures var t := AddTempEntry(s, e);
      t == s || exists c :: 0 <= c < |s.temp| && s.temp[c].key.privateIp == 0 && s.temp[c].key.targetIp == 0 && t == s.(temp := s.temp[c := e])
    ensures var t := DeleteTempEntry(s, k);
      && (t == s <==> !HasKey(s.temp, k) || (exists c :: 0 <= c < |s.temp| && s.temp[c] == ZERO_ENTRY && FirstKey(s.temp, k, 0) == c))
      && (t != s ==> exists c :: 0 <= c < |s.temp| && s.temp[c].key == k && t == s.(temp := s.temp[c := ZERO_ENTRY]))
  {
    var c := FirstBlank(s.temp, 0);
    var d := FirstKey(s.temp, k, 0);
    if d < |s.temp| {
      var t := s.temp[d := ZERO_ENTRY];
      assert t[d] == ZERO_ENTRY;
      if s.temp[d] == ZERO_ENTRY { assert t == s.temp; }
    }
  }
}
