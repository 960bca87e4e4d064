/** What an adding flush moves from the temporary list into the cache and the hardware. */
module NatFlush {
  import opened NatTypes
  import opened NatHardware
  import opened NatSpec
  import opened NatInvariants
  import opened NatProperties
  import opened NatCollision

  // --------------------------------------------------------------------- one entry

  /** Connection `e` is in the cache, and in the hardware unless a client of it sleeps. */
  ghost predicate Served(s: State, e: Entry) {
    exists c :: 0 <= c < |s.cache| && ServedAt(s, c, e)
  }

  ghost predicate ServedAt(s: State, c: nat, e: Entry)
    requires c < |s.cache|
  {
    && RuleOf(s.cache[c]) == RuleOf(e) && s.cache[c].dstNat == e.dstNat
    && (s.cache[c].enabled <==> !OfSleeper(s, e.key))
    && (s.cache[c].enabled ==> s.cache[c].hdl in s.hw.rules && s.hw.rules[s.cache[c].hdl] == RuleOf(e))
  }

  /** A waiting connection with the current public address and a whole key leaves the temp list if
      and only if it can enter the cache at its turn; then it fills one empty slot and is in the
      hardware unless a client of it sleeps. Otherwise it waits on, rewritten in the dummy case,
      and no key of the cache and no rule of the hardware changes. */
  lemma FlushSlotMoves(s: State, i: nat, ip: nat, isDummy: bool) returns (c: nat)
    requires Inv(s) && i < |s.temp| && Offered(s, s.temp[i], ip) && FullKey(Dummied(s.temp[i], isDummy).key)
    ensures var e := Dummied(s.temp[i], isDummy);
      var t := FlushSlot(s, i, ip, true, isDummy);
      && t.temp == s.temp[i := if Enters(s, e) then ZERO_ENTRY else e]
      && (Enters(s, e) ==> Filled(s.cache, t.cache, c, e) && ServedAt(t, c, e))
      && |t.cache| == |s.cache|
      && (!Enters(s, e) ==> t.hw.rules == s.hw.rules)
      && (!Enters(s, e) ==> forall j | 0 <= j < |s.cache| :: t.cache[j].key == s.cache[j].key)
  {
    var e := Dummied(s.temp[i], isDummy);
    var s1 := s.(temp := s.temp[i := e]);
    assert Inv(s1);
    assert Enters(s1, e) <==> Enters(s, e);
    c := AddEntryAccepts(s1, e);
    AddEntryKeeps(s1, e);
  }

  /** Which state the flush is in when it comes to entry `j`. */
  function FlushTo(s: State, j: nat, ip: nat, isAdd: bool, isDummy: bool): (r: State)
    requires j <= |s.temp|
    ensures |r.temp| == |s.temp|
    decreases j
  {
    if j == 0 then s else FlushSlot(FlushTo(s, j - 1, ip, isAdd, isDummy), j - 1, ip, isAdd, isDummy)
  }

  lemma FlushSlotTemp(s: State, i: nat, ip: nat, isAdd: bool, isDummy: bool)
    requires i < |s.temp|
    ensures var t := FlushSlot(s, i, ip, isAdd, isDummy);
      SameSide(s, t) && t.temp == s.temp[i := t.temp[i]]
  {
  }

  lemma {:induction false} FlushToEnd(s: State, j: nat, ip: nat, isAdd: bool, isDummy: bool)
    requires j <= |s.temp| && Inv(s)
    ensures var u := FlushTo(s, j, ip, isAdd, isDummy);
      && Inv(u) && SameSide(s, u) && FlushFrom(u, j, ip, isAdd, isDummy) == FlushFrom(s, 0, ip, isAdd, isDummy)
      && forall x | j <= x < |s.temp| :: u.temp[x] == s.temp[x]
    decreases j
  {
    if j > 0 {
      FlushToEnd(s, j - 1, ip, isAdd, isDummy);
      var v := FlushTo(s, j - 1, ip, isAdd, isDummy);
      FlushSlotTemp(v, j - 1, ip, isAdd, isDummy);
      FlushSlotKeeps(v, j - 1, ip, isAdd, isDummy);
      hide FlushSlot, Inv;
    }
  }

  /** No occupied slot changes. */
  ghost predicate RulesKept(c: seq<Entry>, d: seq<Entry>) {
    |d| == |c| && forall j | 0 <= j < |c| && c[j].key != ZERO_KEY :: d[j] == c[j]
  }

  lemma FlushSlotKeepsRules(s: State, i: nat, ip: nat, isAdd: bool, isDummy: bool)
    requires Inv(s) && i < |s.temp|
    ensures RulesKept(s.cache, FlushSlot(s, i, ip, isAdd, isDummy).cache)
  {
  }

  lemma {:induction false} FlushKeepsRules(s: State, i: nat, ip: nat, isAdd: bool, isDummy: bool)
    requires Inv(s) && i <= |s.temp|
    ensures RulesKept(s.cache, FlushFrom(s, i, ip, isAdd, isDummy).cache)
    decreases |s.temp| - i
  {
    if i < |s.temp| {
      FlushSlotKeeps(s, i, ip, isAdd, isDummy);
      FlushSlotKeepsRules(s, i, ip, isAdd, isDummy);
      hide FlushSlot;
      FlushKeepsRules(FlushSlot(s, i, ip, isAdd, isDummy), i + 1, ip, isAdd, isDummy);
    }
  }

  lemma {:induction false} FlushKeepsTemp(s: State, i: nat, ip: nat, isAdd: bool, isDummy: bool)
    requires i <= |s.temp|
    ensures var t := FlushFrom(s, i, ip, isAdd, isDummy); SameSide(s, t) && forall j | 0 <= j < i :: t.temp[j] == s.temp[j]
    decreases |s.temp| - i
  {
    if i < |s.temp| {
      FlushSlotTemp(s, i, ip, isAdd, isDummy);
      hide FlushSlot;
      FlushKeepsTemp(FlushSlot(s, i, ip, isAdd, isDummy), i + 1, ip, isAdd, isDummy);
    }
  }

  /** A served connection stays served while the rest of the list is flushed. */
  lemma StaysServed(s: State, t: State, c: nat, e: Entry)
    requires Inv(t) && SameSide(s, t) && RulesKept(s.cache, t.cache) && c < |s.cache| && ServedAt(s, c, e) && FullKey(e.key)
    ensures ServedAt(t, c, e)
  {
  }

  /** The whole flush decides entry `j` at its turn: it leaves the list if and only if it can enter
      the cache then, and is served in the end. */
  lemma FlushTurn(s: State, j: nat, ip: nat, isDummy: bool)
    requires Inv(s) && j < |s.temp| && Offered(s, s.temp[j], ip) && FullKey(Dummied(s.temp[j], isDummy).key)
    ensures var e := Dummied(s.temp[j], isDummy);
      var u := FlushTo(s, j, ip, true, isDummy);
      var t := FlushFrom(s, 0, ip, true, isDummy);
      && |t.temp| == |s.temp| && t.temp[j] == (if Enters(u, e) then ZERO_ENTRY else e)
      && (Enters(u, e) ==> Served(t, e))
  {
    FlushToEnd(s, j, ip, true, isDummy);
    var u := FlushTo(s, j, ip, true, isDummy);
    hide FlushTo, FlushFrom, Inv, Enters, Served;
    TurnFromHere(u, j, ip, isDummy);
  }

  lemma TurnFromHere(u: State, j: nat, ip: nat, isDummy: bool)
    requires Inv(u) && j < |u.temp| && Offered(u, u.temp[j], ip) && FullKey(Dummied(u.temp[j], isDummy).key)
    ensures var e := Dummied(u.temp[j], isDummy);
      var t := FlushFrom(u, j, ip, true, isDummy);
      && |t.temp| == |u.temp| && t.temp[j] == (if Enters(u, e) then ZERO_ENTRY else e)
      && (Enters(u, e) ==> Served(t, e))
  {
    var e := Dummied(u.temp[j], isDummy);
    var c := FlushSlotMoves(u, j, ip, isDummy);
    var v := FlushSlot(u, j, ip, true, isDummy);
    FlushSlotKeeps(u, j, ip, true, isDummy);
    hide FlushSlot, Inv, ServedAt, Enters;
    var t := FlushFrom(v, j + 1, ip, true, isDummy);
    assert t == FlushFrom(u, j, ip, true, isDummy);
    FlushKeeps(v, j + 1, ip, true, isDummy);
    FlushKeepsTemp(v, j + 1, ip, true, isDummy);
    FlushKeepsRules(v, j + 1, ip, true, isDummy);
    hide FlushFrom;
    if Enters(u, e) {
      StaysServed(v, t, c, e);
      assert ServedAt(t, c, e);
    }
  }

  // ------------------------------------------------------------------ the whole flush

  /** How many of the entries from `i` on are offered to the cache. */
  function Offers(s: State, i: nat, ip: nat): nat
    requires i <= |s.temp|
    decreases |s.temp| - i
  {
    if i == |s.temp| then 0 else (if Offered(s, s.temp[i], ip) then 1 else 0) + Offers(s, i + 1, ip)
  }

  lemma {:induction false} OffersSame(s: State, u: State, i: nat, ip: nat)
    requires SameSide(s, u) && i <= |s.temp| && forall x | i <= x < |s.temp| :: u.temp[x] == s.temp[x]
    ensures Offers(u, i, ip) == Offers(s, i, ip)
    decreases |s.temp| - i
  {
    if i < |s.temp| {
      OffersSame(s, u, i + 1, ip);
    }
  }

  /** There is a handle, room for every offered entry, and a grant for each of them. */
  ghost predicate Ample(s: State, i: nat, ip: nat)
    requires i <= |s.temp|
  {
    && s.tbl != 0 && Occupied(s.cache) + Offers(s, i, ip) <= |s.cache|
    && Granted(s.hw.fate, s.hw.calls, s.hw.calls + Offers(s, i, ip))
  }

  /** What one entry costs. */
  lemma FlushSlotCost(s: State, i: nat, ip: nat, isDummy: bool)
    requires Inv(s) && i < |s.temp|
    ensures var t := FlushSlot(s, i, ip, true, isDummy);
      var n := if Offered(s, s.temp[i], ip) then 1 else 0;
      && Inv(t) && SameSide(s, t) && t.temp == s.temp[i := t.temp[i]]
      && s.hw.calls <= t.hw.calls <= s.hw.calls + n && Occupied(t.cache) <= Occupied(s.cache) + n
      && forall k | k != ZERO_KEY && HasKey(t.cache, k) :: HasKey(s.cache, k) || (n == 1 && k == Dummied(s.temp[i], isDummy).key)
  {
    FlushSlotKeeps(s, i, ip, true, isDummy);
    FlushSlotTemp(s, i, ip, true, isDummy);
    if Offered(s, s.temp[i], ip) {
      var e := Dummied(s.temp[i], isDummy);
      var s1 := s.(temp := s.temp[i := e]);
      assert Inv(s1);
      AddEntryKeys(s1, e);
      assert s1.hw.calls <= AddEntry(s1, e).s.hw.calls <= s1.hw.calls + 1;
      hide AddEntry, Inv, Occupied, HasKey;
    }
  }

  lemma AmpleStep(s: State, i: nat, ip: nat, isDummy: bool)
    requires Inv(s) && i < |s.temp| && Ample(s, i, ip)
    ensures Ample(FlushSlot(s, i, ip, true, isDummy), i + 1, ip)
  {
    FlushSlotCost(s, i, ip, isDummy);
    var t := FlushSlot(s, i, ip, true, isDummy);
    hide FlushSlot, Inv, Occupied, HasKey;
    OffersSame(s, t, i + 1, ip);
  }

  /** The key of entry `j` is new to the cache and to the entries from `i` on before it. */
  ghost predicate NewKey(s: State, i: nat, j: nat, ip: nat, isDummy: bool)
    requires i <= j < |s.temp|
  {
    var k := Dummied(s.temp[j], isDummy).key;
    && FullKey(k) && !UsesAlgPort(s, k) && !HasKey(s.cache, k)
    && forall x | i <= x < j && Offered(s, s.temp[x], ip) :: Dummied(s.temp[x], isDummy).key != k
  }

  lemma NewKeyStep(s: State, i: nat, j: nat, ip: nat, isDummy: bool)
    requires Inv(s) && i < j < |s.temp| && NewKey(s, i, j, ip, isDummy)
    ensures |FlushSlot(s, i, ip, true, isDummy).temp| == |s.temp| && NewKey(FlushSlot(s, i, ip, true, isDummy), i + 1, j, ip, isDummy)
  {
    FlushSlotCost(s, i, ip, isDummy);
    var t := FlushSlot(s, i, ip, true, isDummy);
    hide FlushSlot, Inv, Occupied, HasKey;
    var k := Dummied(s.temp[j], isDummy).key;
    assert !HasKey(t.cache, k);
  }

  lemma {:induction false} EnoughForTurn(s: State, u: State, i: nat, j: nat, ip: nat, isDummy: bool)
    requires Inv(u) && SameSide(s, u) && i <= j < |s.temp| && u == FlushTo(s, i, ip, true, isDummy)
    requires Ample(u, i, ip) && NewKey(u, i, j, ip, isDummy) && Offered(u, u.temp[j], ip) && u.temp[j] == s.temp[j]
    ensures Enters(FlushTo(s, j, ip, true, isDummy), Dummied(s.temp[j], isDummy))
    decreases j - i
  {
    if i == j {
      OccupiedBound(u.cache);
      assert Offers(u, j, ip) >= 1;
      assert u.hw.fate(u.hw.calls).ok;
    } else {
      var v := FlushSlot(u, i, ip, true, isDummy);
      FlushSlotCost(u, i, ip, isDummy);
      AmpleStep(u, i, ip, isDummy);
      NewKeyStep(u, i, j, ip, isDummy);
      assert v == FlushTo(s, i + 1, ip, true, isDummy);
      hide FlushSlot, Inv, Ample, NewKey, Enters, FlushTo;
      EnoughForTurn(s, v, i + 1, j, ip, isDummy);
    }
  }

  /** With a handle, room and granted calls, an adding flush serves every waiting connection that
      mentions the address, carries the current public address and has a new key, and none of
      them waits any longer. */
  lemma FlushServes(s: State, j: nat, ip: nat, isDummy: bool)
    requires Inv(s) && j < |s.temp| && Offered(s, s.temp[j], ip) && Ample(s, 0, ip) && NewKey(s, 0, j, ip, isDummy)
    ensures var t := FlushFrom(s, 0, ip, true, isDummy);
      |t.temp| == |s.temp| && t.temp[j] == ZERO_ENTRY && Served(t, Dummied(s.temp[j], isDummy))
  {
    EnoughForTurn(s, s, 0, j, ip, isDummy);
    FlushTurn(s, j, ip, isDummy);
  }
}
