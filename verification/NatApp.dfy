/** NatApp as the source writes it: arrays mutated slot by slot, one driver call at a
    time. Every method is proved to compute the operation of NatSpec of the same name. */
module NatAppClass {
  import opened NatTypes
  import opened NatHardware
  import opened NatSpec

  class NatApp {
    const cache: array<Entry>
    const temp: array<Entry>
    const pwrSaveIfs: array<nat>
    const algPorts: seq<(nat, nat)>
    const driver: Driver
    var pubIp: nat
    var pubIpPre: nat
    var tbl: nat
    var curCnt: int

    ghost predicate Valid()
      reads this
    {
      cache != temp && temp.Length == MAX_TEMP_ENTRIES && pwrSaveIfs.Length == MAX_WIFI_CLIENTS
    }

    ghost const Repr: set<object> := {this, cache, temp, pwrSaveIfs, driver}

    ghost function Value(): State
      reads this, cache, temp, pwrSaveIfs, driver
    {
      State(cache[..], temp[..], pwrSaveIfs[..], pubIp, pubIpPre, tbl, curCnt, algPorts, driver.Value())
    }

    constructor (maxEntries: nat, algPorts: seq<(nat, nat)>, previousIp: nat, fate: nat -> Answer)
      ensures Valid() && Init(Value()) && fresh(Repr)
      ensures cache.Length == maxEntries && Value().hw.fate == fate && Value().algPorts == algPorts
      ensures pubIpPre == previousIp
    {
      cache := new Entry[maxEntries](_ => ZERO_ENTRY);
      temp := new Entry[MAX_TEMP_ENTRIES](_ => ZERO_ENTRY);
      pwrSaveIfs := new nat[MAX_WIFI_CLIENTS](_ => 0);
      driver := new Driver(fate);
      this.algPorts := algPorts;
      pubIp, pubIpPre, tbl, curCnt := 0, previousIp, 0, 0;
    }

    method IsAlg(proto: nat, port: nat) returns (found: bool)
      ensures found <==> IsAlgPort(Value(), proto, port)
    {
      for i := 0 to |algPorts|
        invariant (proto, port) !in algPorts[..i]
      {
        if algPorts[i] == (proto, port) { return true; }
      }
      return false;
    }

    method IsPwrSaveIf(ip: nat) returns (found: bool)
      ensures found <==> Sleeping(Value(), ip)
    {
      for i := 0 to pwrSaveIfs.Length
        invariant forall j | 0 <= j < i :: pwrSaveIfs[j] == 0 || pwrSaveIfs[j] != ip
      {
        if pwrSaveIfs[i] != 0 && ip == pwrSaveIfs[i] { return true; }
      }
      return false;
    }

    /** The scans for a key, for an empty slot, and the duplicate checks. */
    method Scan(a: array<Entry>, k: Key) returns (i: nat)
      ensures i == FirstKey(a[..], k, 0)
    {
      i := 0;
      while i < a.Length && a[i].key != k
        invariant i <= a.Length && FirstKey(a[..], k, 0) == FirstKey(a[..], k, i)
      {
        i := i + 1;
      }
    }

    method AddTable(ip: nat) returns (ret: int)
      requires Valid()
      modifies this, cache, driver
      ensures Out(Value(), ret) == NatSpec.AddTable(old(Value()), ip)
    {
      var ok, h := driver.AddTable();
      tbl := h;
      if !ok { return -1; }
      if ip == pubIpPre {
        ghost var s := Value();
        for i := 0 to cache.Length
          invariant SweepFrom(Value(), i, Restore) == SweepFrom(s, 0, Restore)
        {
          if cache[i].key.privateIp != 0 { InstallSlot(i); }
        }
      }
      pubIp := ip;
      return 0;
    }

    method InstallSlot(i: nat)
      requires Valid() && i < cache.Length
      modifies this`curCnt, cache, driver
      ensures Value() == Install(old(Value()), i)
    {
      var ok, h := driver.AddRule(tbl, RuleOf(cache[i]));
      if ok {
        cache[i] := cache[i].(enabled := true, hdl := h);
      } else {
        cache[i] := ZERO_ENTRY;
        curCnt := curCnt - 1;
      }
    }

    method DeleteTable(ip: nat) returns (ret: int)
      requires Valid()
      modifies this, cache, driver
      ensures Out(Value(), ret) == NatSpec.DeleteTable(old(Value()), ip)
    {
      if tbl == 0 || pubIp != ip { return -1; }
      var ok := driver.DelTable(tbl);
      if !ok { return -1; }
      pubIpPre := pubIp;
      tbl, pubIp := 0, 0;
      ghost var c := cache[..];
      for i := 0 to cache.Length
        invariant forall j | 0 <= j < i :: cache[j] == c[j].(enabled := false)
        invariant forall j | i <= j < cache.Length :: cache[j] == c[j]
        modifies cache
      {
        cache[i] := cache[i].(enabled := false);
      }
      assert cache[..] == AllDisabled(c);
      return 0;
    }

    method DeleteEntry(k: Key)
      requires Valid()
      modifies this`curCnt, cache, driver
      ensures Value() == NatSpec.DeleteEntry(old(Value()), k)
    {
      var i := Scan(cache, k);
      if i < cache.Length {
        if cache[i].enabled {
          var _ := driver.DelRule(tbl, cache[i].hdl);
        }
        cache[i] := ZERO_ENTRY;
        curCnt := curCnt - 1;
      }
    }

    method AddEntry(e: Entry) returns (ret: int)
      requires Valid()
      modifies this`curCnt, cache, driver
      ensures Out(Value(), ret) == NatSpec.AddEntry(old(Value()), e)
    {
      hide FirstKey, InsertRule, Sleeping;
      if tbl == 0 { return -1; }
      var p := IsAlg(e.key.protocol, e.key.privatePort);
      var t := IsAlg(e.key.protocol, e.key.targetPort);
      if p || t { return -1; }
      if !FullKey(e.key) { return 0; }
      var dup := Scan(cache, e.key);
      if dup < cache.Length { return -1; }
      var c := Scan(cache, ZERO_KEY);
      if c == cache.Length { return -1; }
      var sp := IsPwrSaveIf(e.key.privateIp);
      var st := IsPwrSaveIf(e.key.targetIp);
      if sp || st {
        cache[c] := cache[c].(enabled := false, hdl := 0);
      } else {
        var ok, h := driver.AddRule(tbl, RuleOf(e));
        cache[c] := cache[c].(hdl := h);
        if !ok { return -1; }
        cache[c] := cache[c].(enabled := true);
      }
      cache[c] := cache[c].(key := e.key, timestamp := 0, publicPort := e.publicPort, dstNat := e.dstNat);
      curCnt := curCnt + 1;
      return 0;
    }

    method CacheEntry(e: Entry)
      requires Valid()
      modifies this`curCnt, cache
      ensures Value() == NatSpec.CacheEntry(old(Value()), e)
    {
      if !FullKey(e.key) { return; }
      var dup := Scan(cache, e.key);
      if dup < cache.Length { return; }
      var c := Scan(cache, ZERO_KEY);
      if c == cache.Length { return; }
      cache[c] := Entry(e.key, e.publicIp, e.publicPort, 0, e.dstNat, false, 0);
      curCnt := curCnt + 1;
    }

    /** The break-at-first-match loops over the power-save list. */
    method SwapFirst(x: nat, y: nat)
      requires Valid()
      modifies pwrSaveIfs
      ensures pwrSaveIfs[..] == ReplaceFirst(old(pwrSaveIfs[..]), x, y)
    {
      var i := 0;
      while i < pwrSaveIfs.Length && pwrSaveIfs[i] != x
        invariant i <= pwrSaveIfs.Length && FirstOf(pwrSaveIfs[..], x, 0) == FirstOf(pwrSaveIfs[..], x, i)
      {
        i := i + 1;
      }
      if i < pwrSaveIfs.Length {
        pwrSaveIfs[i] := y;
      }
    }

    method UpdatePwrSaveIf(ip: nat) returns (ret: int)
      requires Valid()
      modifies pwrSaveIfs, cache, driver
      ensures Out(Value(), ret) == NatSpec.UpdatePwrSaveIf(old(Value()), ip)
    {
      if ip == 0 { return -1; }
      for i := 0 to pwrSaveIfs.Length
        invariant ip !in pwrSaveIfs[..i]
      {
        if pwrSaveIfs[i] == ip { return 0; }
      }
      SwapFirst(0, ip);
      ghost var s := Value();
      for i := 0 to cache.Length
        invariant SweepFrom(Value(), i, Sleep(ip)) == SweepFrom(s, 0, Sleep(ip))
      {
        if cache[i].key.privateIp == ip && cache[i].enabled {
          var ok := driver.DelRule(tbl, cache[i].hdl);
          if ok {
            cache[i] := cache[i].(enabled := false, hdl := 0);
          }
        }
      }
      return 0;
    }

    method ResetPwrSaveIf(ip: nat) returns (ret: int)
      requires Valid()
      modifies this`curCnt, pwrSaveIfs, cache, driver
      ensures Value() == NatSpec.ResetPwrSaveIf(old(Value()), ip) && ret == -1
    {
      if ip == 0 { return -1; }
      SwapFirst(ip, 0);
      ghost var s := Value();
      for i := 0 to cache.Length
        invariant SweepFrom(Value(), i, Wake(ip)) == SweepFrom(s, 0, Wake(ip))
      {
        if cache[i].key.privateIp == ip && !cache[i].enabled { InstallSlot(i); }
      }
      return -1;
    }

    method DelEntriesOnClntDiscon(ip: nat) returns (ret: int)
      requires Valid()
      modifies pwrSaveIfs, cache, driver
      ensures Out(Value(), ret) == NatSpec.DelEntriesOnClntDiscon(old(Value()), ip)
    {
      if ip == 0 { return -1; }
      SwapFirst(ip, 0);
      ghost var s := Value();
      for i := 0 to cache.Length
        invariant SweepFrom(Value(), i, Leave(ip)) == SweepFrom(s, 0, Leave(ip))
      {
        if cache[i].key.privateIp == ip && cache[i].enabled {
          var ok := driver.DelRule(tbl, cache[i].hdl);
          if ok {
            cache[i] := cache[i].(enabled := false);
          }
        }
      }
      return 0;
    }

    method DelEntriesOnSTAClntDiscon(ip: nat) returns (ret: int)
      requires Valid()
      modifies this`curCnt, cache, driver
      ensures Out(Value(), ret) == NatSpec.DelEntriesOnSTAClntDiscon(old(Value()), ip)
    {
      if ip == 0 { return -1; }
      ghost var s := Value();
      for i := 0 to cache.Length
        invariant SweepFrom(Value(), i, StaLeave(ip)) == SweepFrom(s, 0, StaLeave(ip))
      {
        if cache[i].key.targetIp == ip {
          if cache[i].enabled {
            var ok := driver.DelRule(tbl, cache[i].hdl);
            if !ok { continue; }
          }
          cache[i] := ZERO_ENTRY;
          curCnt := curCnt - 1;
        }
      }
      return 0;
    }

    method AddTempEntry(e: Entry)
      requires Valid()
      modifies temp
      ensures Value() == NatSpec.AddTempEntry(old(Value()), e)
    {
      var p := IsAlg(e.key.protocol, e.key.privatePort);
      var t := IsAlg(e.key.protocol, e.key.targetPort);
      if p || t { return; }
      var dup := Scan(cache, e.key);
      if dup < cache.Length { return; }
      dup := Scan(temp, e.key);
      if dup < temp.Length { return; }
      var c := 0;
      while c < temp.Length && !(temp[c].key.privateIp == 0 && temp[c].key.targetIp == 0)
        invariant c <= temp.Length && FirstBlank(temp[..], 0) == FirstBlank(temp[..], c)
      {
        c := c + 1;
      }
      if c < temp.Length {
        temp[c] := e;
      }
    }

    method DeleteTempEntry(k: Key)
      requires Valid()
      modifies temp
      ensures Value() == NatSpec.DeleteTempEntry(old(Value()), k)
    {
      var c := Scan(temp, k);
      if c < temp.Length {
        temp[c] := ZERO_ENTRY;
      }
    }

    method FlushTempEntries(ip: nat, isAdd: bool, isDummy: bool)
      requires Valid()
      modifies this`curCnt, cache, temp, driver
      ensures Value() == FlushFrom(old(Value()), 0, ip, isAdd, isDummy)
    {
      ghost var s := Value();
      for i := 0 to temp.Length
        invariant FlushFrom(Value(), i, ip, isAdd, isDummy) == FlushFrom(s, 0, ip, isAdd, isDummy)
      {
        ghost var before := Value();
        if temp[i].key.privateIp == ip || temp[i].key.targetIp == ip {
          if isAdd && temp[i].publicIp == pubIp {
            if isDummy {
              temp[i] := temp[i].(key := temp[i].key.(privateIp := temp[i].publicIp, privatePort := temp[i].publicPort));
            }
            assert temp[..] == before.temp[i := Dummied(before.temp[i], isDummy)];
            var ret := AddEntry(temp[i]);
            if ret != 0 {
              assert Value() == FlushSlot(before, i, ip, isAdd, isDummy);
              continue;
            }
          }
          temp[i] := ZERO_ENTRY;
        }
        assert Value() == FlushSlot(before, i, ip, isAdd, isDummy);
      }
    }

    /** `query` and `ctOk` stand for the hardware's timestamps and conntrack's replies. */
    method UpdateUDPTimeStamp(query: nat -> Stamp, ctOk: nat -> bool)
      requires Valid()
      modifies this`curCnt, cache, driver
      ensures Value() == Run(old(Value()), seq(cache.Length, i requires i >= 0 => OpStamp(i, query(i), ctOk(i))))
    {
      ghost var ops := seq(cache.Length, i requires i >= 0 => OpStamp(i, query(i), ctOk(i)));
      ghost var s := Value();
      assert ops[0..] == ops;
      for i := 0 to cache.Length
        invariant Run(Value(), ops[i..]) == Run(s, ops)
      {
        assert ops[i..][0] == ops[i] && ops[i..][1..] == ops[i + 1..];
        if cache[i].enabled && cache[i].key.privateIp != cache[i].publicIp {
          var q := query(i);
          if q.NoAnswer? || cache[i].timestamp == q.ts { continue; }
          if ctOk(i) {
            cache[i] := cache[i].(timestamp := q.ts);
          } else {
            DeleteEntry(cache[i].key);
          }
        }
      }
    }
  }
}
