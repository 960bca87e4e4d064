/** NatApp on values: one function per operation over the whole state, and runs
    of operations. The class in NatApp.dfy is proved to compute these. */
module NatSpec {
  import opened NatTypes
  import opened NatHardware

  const MAX_TEMP_ENTRIES := 25
  const MAX_WIFI_CLIENTS := 32

  datatype State = State(cache: seq<Entry>, temp: seq<Entry>, pwrSave: seq<nat>,
                         pubIp: nat, pubIpPre: nat, tbl: nat, curCnt: int,
                         algPorts: seq<(nat, nat)>, hw: Hw)

  datatype Out = Out(s: State, ret: int)

  /** A freshly initialised NatApp: previous public address and oracle are arbitrary. */
  ghost predicate Init(s: State) {
    && (forall i | 0 <= i < |s.cache| :: s.cache[i] == ZERO_ENTRY)
    && |s.temp| == MAX_TEMP_ENTRIES && (forall i | 0 <= i < |s.temp| :: s.temp[i] == ZERO_ENTRY)
    && |s.pwrSave| == MAX_WIFI_CLIENTS && (forall i | 0 <= i < |s.pwrSave| :: s.pwrSave[i] == 0)
    && s.pubIp == 0 && s.tbl == 0 && s.curCnt == 0
    && !s.hw.table && s.hw.rules == map[]
  }

  predicate IsAlgPort(s: State, proto: nat, port: nat) { (proto, port) in s.algPorts }

  predicate UsesAlgPort(s: State, k: Key) {
    IsAlgPort(s, k.protocol, k.privatePort) || IsAlgPort(s, k.protocol, k.targetPort)
  }

  predicate Sleeping(s: State, ip: nat) { ip != 0 && ip in s.pwrSave }

  // ---------------------------------------------------------------- one slot

  /** Give slot `i` to the hardware; a refused slot is erased. */
  function Install(s: State, i: nat): State
    requires i < |s.cache|
  {
    var r := InsertRule(s.hw, s.tbl, RuleOf(s.cache[i]));
    if r.ok then s.(hw := r.hw, cache := s.cache[i := s.cache[i].(enabled := true, hdl := r.hdl)])
    else s.(hw := r.hw, cache := s.cache[i := ZERO_ENTRY], curCnt := s.curCnt - 1)
  }

  /** Take slot `i` out of the hardware but keep it cached; a failed removal changes nothing. */
  function Withdraw(s: State, i: nat, forget: bool): State
    requires i < |s.cache|
  {
    var e := s.cache[i];
    var r := RemoveRule(s.hw, s.tbl, e.hdl);
    if r.ok then s.(hw := r.hw, cache := s.cache[i := e.(enabled := false, hdl := if forget then 0 else e.hdl)])
    else s.(hw := r.hw)
  }

  function Erase(s: State, i: nat): State
    requires i < |s.cache|
  {
    s.(cache := s.cache[i := ZERO_ENTRY], curCnt := s.curCnt - 1)
  }

  // ------------------------------------------------------- loops over the cache

  /** The five loops over the cache that talk to the hardware. */
  datatype Sweep = Restore | Sleep(ip: nat) | Wake(ip: nat) | Leave(ip: nat) | StaLeave(ip: nat)

  predicate Hit(e: Entry, w: Sweep) {
    match w
    case Restore => e.key.privateIp != 0
    case Sleep(ip) => e.key.privateIp == ip && e.enabled
    case Wake(ip) => e.key.privateIp == ip && !e.enabled
    case Leave(ip) => e.key.privateIp == ip && e.enabled
    case StaLeave(ip) => e.key.targetIp == ip
  }

  function Touch(s: State, i: nat, w: Sweep): State
    requires i < |s.cache|
  {
    if !Hit(s.cache[i], w) then s
    else
      match w
      case Restore => Install(s, i)
      case Wake(_) => Install(s, i)
      case Sleep(_) => Withdraw(s, i, true)
      case Leave(_) => Withdraw(s, i, false)
      case StaLeave(_) =>
        if !s.cache[i].enabled then Erase(s, i)
        else
          var r := RemoveRule(s.hw, s.tbl, s.cache[i].hdl);
          if r.ok then Erase(s.(hw := r.hw), i) else s.(hw := r.hw)
  }

  /** Slots `i..` in order. */
  function SweepFrom(s: State, i: nat, w: Sweep): (r: State)
    requires i <= |s.cache|
    ensures |r.cache| == |s.cache|
    decreases |s.cache| - i
  {
    if i == |s.cache| then s else SweepFrom(Touch(s, i, w), i + 1, w)
  }

  // --------------------------------------------------------------- operations

  function AddTable(s: State, ip: nat): Out {
    var r := CreateTable(s.hw);
    var s1 := s.(hw := r.hw, tbl := r.hdl);
    if !r.ok then Out(s1, -1)
    else
      var s2 := if ip == s.pubIpPre then SweepFrom(s1, 0, Restore) else s1;
      Out(s2.(pubIp := ip), 0)
  }

  function AllDisabled(c: seq<Entry>): seq<Entry> { seq(|c|, i requires 0 <= i < |c| => c[i].(enabled := false)) }

  function DeleteTable(s: State, ip: nat): Out {
    if s.tbl == 0 || s.pubIp != ip then Out(s, -1)
    else
      var r := DropTable(s.hw, s.tbl);
      if !r.ok then Out(s.(hw := r.hw), -1)
      else Out(s.(hw := r.hw, pubIpPre := s.pubIp, tbl := 0, pubIp := 0, cache := AllDisabled(s.cache)), 0)
  }

  /** Forgets the slot even when the hardware refuses the removal. */
  function DeleteEntry(s: State, k: Key): State {
    var c := FirstKey(s.cache, k, 0);
    if c == |s.cache| then s
    else if s.cache[c].enabled then Erase(s.(hw := RemoveRule(s.hw, s.tbl, s.cache[c].hdl).hw), c)
    else Erase(s, c)
  }

  /** Slot contents written on insertion; the public address of the slot is left alone. */
  function Stored(e: Entry, slot: Entry, enabled: bool, hdl: nat): Entry {
    Entry(e.key, slot.publicIp, e.publicPort, 0, e.dstNat, enabled, hdl)
  }

  function AddEntry(s: State, e: Entry): Out {
    if s.tbl == 0 || UsesAlgPort(s, e.key) then Out(s, -1)
    else if !FullKey(e.key) then Out(s, 0)
    else if FirstKey(s.cache, e.key, 0) < |s.cache| then Out(s, -1)
    else
      var c := FirstKey(s.cache, ZERO_KEY, 0);
      if c == |s.cache| then Out(s, -1)
      else if Sleeping(s, e.key.privateIp) || Sleeping(s, e.key.targetIp) then
        Out(s.(cache := s.cache[c := Stored(e, s.cache[c], false, 0)], curCnt := s.curCnt + 1), 0)
      else
        var r := InsertRule(s.hw, s.tbl, RuleOf(e));
        if r.ok then
          Out(s.(hw := r.hw, cache := s.cache[c := Stored(e, s.cache[c], true, r.hdl)], curCnt := s.curCnt + 1), 0)
        else Out(s.(hw := r.hw, cache := s.cache[c := s.cache[c].(hdl := r.hdl)]), -1)
  }

  function CacheEntry(s: State, e: Entry): State {
    if !FullKey(e.key) || FirstKey(s.cache, e.key, 0) < |s.cache| then s
    else
      var c := FirstKey(s.cache, ZERO_KEY, 0);
      if c == |s.cache| then s
      else s.(cache := s.cache[c := Stored(e, e, false, 0)], curCnt := s.curCnt + 1)
  }

  function UpdatePwrSaveIf(s: State, ip: nat): Out {
    if ip == 0 then Out(s, -1)
    else if ip in s.pwrSave then Out(s, 0)
    else Out(SweepFrom(s.(pwrSave := ReplaceFirst(s.pwrSave, 0, ip)), 0, Sleep(ip)), 0)
  }

  /** The source returns -1 on every path. */
  function ResetPwrSaveIf(s: State, ip: nat): State {
    if ip == 0 then s
    else SweepFrom(s.(pwrSave := ReplaceFirst(s.pwrSave, ip, 0)), 0, Wake(ip))
  }

  function DelEntriesOnClntDiscon(s: State, ip: nat): Out {
    if ip == 0 then Out(s, -1)
    else Out(SweepFrom(s.(pwrSave := ReplaceFirst(s.pwrSave, ip, 0)), 0, Leave(ip)), 0)
  }

  function DelEntriesOnSTAClntDiscon(s: State, ip: nat): Out {
    if ip == 0 then Out(s, -1) else Out(SweepFrom(s, 0, StaLeave(ip)), 0)
  }

  /** First temp slot at or after `i` whose two addresses are zero, or the length. */
  function FirstBlank(t: seq<Entry>, i: nat): (r: nat)
    requires i <= |t|
    ensures i <= r <= |t|
    ensures r < |t| ==> t[r].key.privateIp == 0 && t[r].key.targetIp == 0
    ensures forall j | i <= j < r :: t[j].key.privateIp != 0 || t[j].key.targetIp != 0
    decreases |t| - i
  {
    if i == |t| || (t[i].key.privateIp == 0 && t[i].key.targetIp == 0) then i else FirstBlank(t, i + 1)
  }

  function AddTempEntry(s: State, e: Entry): State {
    if UsesAlgPort(s, e.key) || FirstKey(s.cache, e.key, 0) < |s.cache| || FirstKey(s.temp, e.key, 0) < |s.temp| then s
    else
      var c := FirstBlank(s.temp, 0);
      if c == |s.temp| then s else s.(temp := s.temp[c := e])
  }

  function DeleteTempEntry(s: State, k: Key): State {
    var c := FirstKey(s.temp, k, 0);
    if c == |s.temp| then s else s.(temp := s.temp[c := ZERO_ENTRY])
  }

  predicate Mentions(e: Entry, ip: nat) { e.key.privateIp == ip || e.key.targetIp == ip }

  /** The rewriting done for clients outside the hardware path. */
  function Dummied(e: Entry, isDummy: bool): Entry {
    if isDummy then e.(key := e.key.(privateIp := e.publicIp, privatePort := e.publicPort)) else e
  }

  function FlushSlot(s: State, i: nat, ip: nat, isAdd: bool, isDummy: bool): State
    requires i < |s.temp|
  {
    if !Mentions(s.temp[i], ip) then s
    else if isAdd && s.temp[i].publicIp == s.pubIp then
      var e := Dummied(s.temp[i], isDummy);
      var s1 := s.(temp := s.temp[i := e]);
      var o := AddEntry(s1, e);
      if o.ret != 0 then o.s else o.s.(temp := o.s.temp[i := ZERO_ENTRY])
    else s.(temp := s.temp[i := ZERO_ENTRY])
  }

  function FlushFrom(s: State, i: nat, ip: nat, isAdd: bool, isDummy: bool): (r: State)
    requires i <= |s.temp|
    ensures |r.temp| == |s.temp|
    decreases |s.temp| - i
  {
    if i == |s.temp| then s
    else FlushFrom(FlushSlot(s, i, ip, isAdd, isDummy), i + 1, ip, isAdd, isDummy)
  }

  /** One iteration of the timestamp loop: `ts` is the hardware's answer (None: the query
      failed), `ctOk` whether conntrack accepted the update. */
  datatype Stamp = NoAnswer | At(ts: nat)

  function StampSlot(s: State, i: nat, q: Stamp, ctOk: bool): State {
    if i >= |s.cache| || !s.cache[i].enabled || s.cache[i].key.privateIp == s.cache[i].publicIp || q.NoAnswer?
       || s.cache[i].timestamp == q.ts then s
    else if ctOk then s.(cache := s.cache[i := s.cache[i].(timestamp := q.ts)])
    else DeleteEntry(s, s.cache[i].key)
  }

  // --------------------------------------------------------------------- runs

  datatype Op =
    | OpAddTable(ip: nat)
    | OpDeleteTable(ip: nat)
    | OpAddEntry(e: Entry)
    | OpDeleteEntry(k: Key)
    | OpCacheEntry(e: Entry)
    | OpUpdatePwrSave(ip: nat)
    | OpResetPwrSave(ip: nat)
    | OpClntDiscon(ip: nat)
    | OpStaDiscon(ip: nat)
    | OpAddTemp(e: Entry)
    | OpDeleteTemp(k: Key)
    | OpFlush(ip: nat, isAdd: bool, isDummy: bool)
    | OpStamp(i: nat, q: Stamp, ctOk: bool)

  function Apply(s: State, op: Op): State {
    match op
    case OpAddTable(ip) => AddTable(s, ip).s
    case OpDeleteTable(ip) => DeleteTable(s, ip).s
    case OpAddEntry(e) => AddEntry(s, e).s
    case OpDeleteEntry(k) => DeleteEntry(s, k)
    case OpCacheEntry(e) => CacheEntry(s, e)
    case OpUpdatePwrSave(ip) => UpdatePwrSaveIf(s, ip).s
    case OpResetPwrSave(ip) => ResetPwrSaveIf(s, ip)
    case OpClntDiscon(ip) => DelEntriesOnClntDiscon(s, ip).s
    case OpStaDiscon(ip) => DelEntriesOnSTAClntDiscon(s, ip).s
    case OpAddTemp(e) => AddTempEntry(s, e)
    case OpDeleteTemp(k) => DeleteTempEntry(s, k)
    case OpFlush(ip, isAdd, isDummy) => FlushFrom(s, 0, ip, isAdd, isDummy)
    case OpStamp(i, q, ctOk) => StampSlot(s, i, q, ctOk)
  }

  function Run(s: State, ops: seq<Op>): State
    decreases |ops|
  {
    if ops == [] then s else Run(Apply(s, ops[0]), ops[1..])
  }

  lemma RunNone(s: State)
    ensures Run(s, []) == s
  {
  }

  lemma RunOne(s: State, a: Op)
    ensures Run(s, [a]) == Apply(s, a)
  {
    assert Run(Apply(s, a), []) == Apply(s, a);
  }

  lemma RunTwo(s: State, a: Op, b: Op)
    ensures Run(s, [a, b]) == Apply(Apply(s, a), b)
  {
    assert [a, b][1..] == [b];
    RunOne(Apply(s, a), b);
  }
}
