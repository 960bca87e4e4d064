/** Flushing the temporary list for clients outside the hardware path rewrites keys, so that two
    waiting connections can end up with one key: exactly when the driver can bring that about. */
module NatCollision {
  import opened NatTypes
  import opened NatHardware
  import opened NatSpec
  import opened NatInvariants

  // ----------------------------------------------------------------- the condition

  /** A dummy flush for `ip` rewrites the entry and offers it to the cache. */
  predicate Offered(s: State, e: Entry, ip: nat) { Mentions(e, ip) && e.publicIp == s.pubIp }

  /** An incomplete key that the cache takes without storing it. */
  predicate Vanishes(s: State, k: Key) { s.tbl != 0 && !UsesAlgPort(s, k) && !FullKey(k) }

  /** The key under which a dummy flush for `ip` may leave an entry waiting. */
  function FlushKey(s: State, e: Entry, ip: nat): Key {
    if !Mentions(e, ip) then e.key
    else if !Offered(s, e, ip) || Vanishes(s, Dummied(e, true).key) then ZERO_KEY
    else Dummied(e, true).key
  }

  /** A key that the cache stores if it has room and, unless a client sleeps, the driver agrees. */
  ghost predicate Fits(s: State, k: Key) { s.tbl != 0 && !UsesAlgPort(s, k) && FullKey(k) && !HasKey(s.cache, k) }

  predicate OfSleeper(s: State, k: Key) { Sleeping(s, k.privateIp) || Sleeping(s, k.targetIp) }

  ghost predicate Candidate(s: State, e: Entry, ip: nat) { Offered(s, e, ip) && Fits(s, FlushKey(s, e, ip)) }

  /** The keys that the first `n` temp entries can bring into the cache. */
  ghost function Newcomers(s: State, ip: nat, n: nat): set<Key>
    requires n <= |s.temp|
  {
    set j | 0 <= j < n && Candidate(s, s.temp[j], ip) :: FlushKey(s, s.temp[j], ip)
  }

  /** Entry `j` enters the cache whatever the driver answers: it concerns a sleeping client, so
      that the driver is not asked, no earlier entry has its key, and there is room for it even if
      every earlier candidate enters. */
  ghost predicate SurelyEnters(s: State, ip: nat, j: nat)
    requires j < |s.temp|
  {
    var k := FlushKey(s, s.temp[j], ip);
    && Candidate(s, s.temp[j], ip) && OfSleeper(s, k) && k !in Newcomers(s, ip, j)
    && Occupied(s.cache) + |Newcomers(s, ip, j)| < |s.cache|
  }

  /** No two temp entries can be left waiting under one key. */
  ghost predicate NoCollision(s: State, ip: nat) {
    forall i, j | 0 <= i < j < |s.temp| && FlushKey(s, s.temp[i], ip) == FlushKey(s, s.temp[j], ip) ::
      FlushKey(s, s.temp[i], ip) == ZERO_KEY || SurelyEnters(s, ip, i) || SurelyEnters(s, ip, j)
  }

  // ----------------------------------------------------------- the middle of a flush

  lemma {:induction false} OccupiedBound(c: seq<Entry>)
    ensures Occupied(c) <= |c|
    ensures Occupied(c) < |c| <==> HasKey(c, ZERO_KEY)
  {
    if c != [] {
      var n := |c| - 1;
      OccupiedBound(c[..n]);
      assert HasKey(c, ZERO_KEY) <==> HasKey(c[..n], ZERO_KEY) || c[n].key == ZERO_KEY by {
        if i :| 0 <= i < |c[..n]| && c[..n][i].key == ZERO_KEY { assert c[i].key == ZERO_KEY; }
        if i :| 0 <= i < n && c[i].key == ZERO_KEY { assert c[..n][i].key == ZERO_KEY; }
      }
    }
  }

  /** What a flush does not touch. */
  ghost predicate SameSide(s: State, t: State) {
    && t.tbl == s.tbl && t.algPorts == s.algPorts && t.pubIp == s.pubIp && t.pwrSave == s.pwrSave
    && t.hw.fate == s.hw.fate && |t.temp| == |s.temp| && |t.cache| == |s.cache|
  }

  /** `u` is a dummy flush of `s` that has dealt with the first `i` entries, of which those with
      the keys `added` have entered the cache. */
  ghost predicate Mid(s: State, u: State, ip: nat, i: nat, added: set<Key>) {
    && Inv(u) && SameSide(s, u) && i <= |s.temp| && (forall j | i <= j < |s.temp| :: u.temp[j] == s.temp[j])
    && added <= Newcomers(s, ip, i)
    && Grown(s.cache, u.cache, added)
  }

  /** The keys in `d` are those in `c` and the keys `added`. */
  ghost predicate Grown(c: seq<Entry>, d: seq<Entry>, added: set<Key>) {
    && (forall k | k != ZERO_KEY :: HasKey(d, k) <==> HasKey(c, k) || k in added)
    && Occupied(d) == Occupied(c) + |added|
  }

  lemma GrownTwice(c: seq<Entry>, d: seq<Entry>, e: seq<Entry>, a: set<Key>, b: set<Key>)
    requires Grown(c, d, a) && Grown(d, e, b) && a !! b
    ensures Grown(c, e, a + b)
  {
    hide HasKey, Occupied;
    assert |a + b| == |a| + |b|;
  }

  /** What one insertion makes of the keys in the cache. */
  lemma AddEntryKeys(s: State, e: Entry)
    requires Inv(s)
    ensures var t := AddEntry(s, e).s;
      var entered := AddEntry(s, e).ret == 0 && FullKey(e.key);
      && SameSide(s, t) && t.temp == s.temp
      && (entered ==> Fits(s, e.key))
      && (forall k | k != ZERO_KEY :: HasKey(t.cache, k) <==> HasKey(s.cache, k) || (entered && k == e.key))
      && Occupied(t.cache) == Occupied(s.cache) + if entered then 1 else 0
  {
    var c := FirstKey(s.cache, ZERO_KEY, 0);
    var t := AddEntry(s, e).s;
    if t.cache != s.cache {
      assert t.cache == s.cache[c := t.cache[c]] && s.cache[c].key == ZERO_KEY;
      assert t.cache[c].key == if AddEntry(s, e).ret == 0 then e.key else ZERO_KEY;
      assert !HasKey(s.cache, e.key) && FullKey(e.key);
      hide AddEntry, Inv;
      OccupiedUpdate(s.cache, c, t.cache[c]);
      forall k | k != ZERO_KEY ensures HasKey(t.cache, k) <==> HasKey(s.cache, k) || k == t.cache[c].key {
        KeyUpdate(s.cache, c, t.cache[c], k);
      }
    }
  }

  lemma KeyUpdate(c: seq<Entry>, i: nat, e: Entry, k: Key)
    requires i < |c| && c[i].key == ZERO_KEY && k != ZERO_KEY
    ensures HasKey(c[i := e], k) <==> HasKey(c, k) || k == e.key
  {
    var d := c[i := e];
    if j :| 0 <= j < |c| && c[j].key == k { assert d[j].key == k; }
    if k == e.key { assert d[i].key == k; }
  }

  /** When an insertion is refused. */
  lemma AddEntryRefuses(s: State, e: Entry)
    requires Inv(s)
    ensures AddEntry(s, e).ret == 0 <==>
      || Vanishes(s, e.key)
      || (Fits(s, e.key) && Occupied(s.cache) < |s.cache| && (OfSleeper(s, e.key) || s.hw.fate(s.hw.calls).ok))
  {
    OccupiedBound(s.cache);
  }

  lemma NewcomersGrow(s: State, ip: nat, i: nat)
    requires i < |s.temp|
    ensures Newcomers(s, ip, i + 1) ==
      Newcomers(s, ip, i) + if Candidate(s, s.temp[i], ip) then {FlushKey(s, s.temp[i], ip)} else {}
  {
  }

  /** Temp entry `i` of `u` is offered to the cache and stored there. */
  ghost predicate Entered(u: State, ip: nat, i: nat)
    requires i < |u.temp|
  {
    var d := Dummied(u.temp[i], true);
    Offered(u, u.temp[i], ip) && FullKey(d.key) && AddEntry(u.(temp := u.temp[i := d]), d).ret == 0
  }

  /** The key that temp entry `i` of `u` brings into the cache, if any. */
  ghost function Entrant(u: State, ip: nat, i: nat): set<Key>
    requires i < |u.temp|
  {
    if Entered(u, ip, i) then {Dummied(u.temp[i], true).key} else {}
  }

  lemma FlushSlotKeys(u: State, ip: nat, i: nat)
    requires Inv(u) && i < |u.temp|
    ensures var t := FlushSlot(u, i, ip, true, true);
      && SameSide(u, t) && t.temp == u.temp[i := t.temp[i]]
      && (Entered(u, ip, i) ==> Fits(u, Dummied(u.temp[i], true).key))
      && Grown(u.cache, t.cache, Entrant(u, ip, i))
  {
    FlushSlotLeft(u, i, ip);
    if Offered(u, u.temp[i], ip) {
      var d := Dummied(u.temp[i], true);
      var u1 := u.(temp := u.temp[i := d]);
      assert Inv(u1);
      AddEntryKeys(u1, d);
      hide AddEntry, Inv, Occupied, HasKey;
    }
  }

  lemma EntrantFits(s: State, u: State, ip: nat, i: nat, added: set<Key>)
    requires Mid(s, u, ip, i, added) && i < |s.temp|
    requires Entered(u, ip, i) ==> Fits(u, Dummied(u.temp[i], true).key)
    ensures added !! Entrant(u, ip, i)
    ensures Entered(u, ip, i) ==> Candidate(s, s.temp[i], ip) && FlushKey(s, s.temp[i], ip) == Dummied(u.temp[i], true).key
  {
    hide Inv, Occupied, Newcomers;
  }

  /** One entry of the flush is dealt with. */
  lemma MidStep(s: State, u: State, ip: nat, i: nat, added: set<Key>)
    requires Mid(s, u, ip, i, added) && i < |s.temp|
    ensures Mid(s, FlushSlot(u, i, ip, true, true), ip, i + 1, added + Entrant(u, ip, i))
  {
    var t := FlushSlot(u, i, ip, true, true);
    FlushSlotKeeps(u, i, ip, true, true);
    FlushSlotKeys(u, ip, i);
    EntrantFits(s, u, ip, i, added);
    GrownTwice(s.cache, u.cache, t.cache, added, Entrant(u, ip, i));
    NewcomersGrow(s, ip, i);
    hide FlushSlot, Newcomers, Inv, Grown, Entered, Candidate, FlushKey;
  }

  // ------------------------------------------------------------- what is left waiting

  /** What a dummy flush leaves of one entry, whatever the driver answers. */
  ghost predicate Left(s: State, a: Entry, b: Entry, ip: nat) {
    (b == ZERO_ENTRY && Mentions(a, ip)) || b.key == FlushKey(s, a, ip)
  }

  lemma FlushSlotLeft(s: State, i: nat, ip: nat)
    requires i < |s.temp|
    ensures var t := FlushSlot(s, i, ip, true, true);
      SameSide(s, t) && t.temp == s.temp[i := t.temp[i]] && Left(s, s.temp[i], t.temp[i], ip)
  {
  }

  lemma {:induction false} FlushLeft(s: State, i: nat, ip: nat)
    requires i <= |s.temp|
    ensures var t := FlushFrom(s, i, ip, true, true);
      && |t.temp| == |s.temp|
      && (forall j | 0 <= j < i :: t.temp[j] == s.temp[j])
      && (forall j | i <= j < |s.temp| :: Left(s, s.temp[j], t.temp[j], ip))
    decreases |s.temp| - i
  {
    if i < |s.temp| {
      FlushSlotLeft(s, i, ip);
      var u := FlushSlot(s, i, ip, true, true);
      hide FlushSlot;
      FlushLeft(u, i + 1, ip);
      var t := FlushFrom(u, i + 1, ip, true, true);
      assert forall j | i < j < |s.temp| :: Left(u, u.temp[j], t.temp[j], ip) && u.temp[j] == s.temp[j];
    }
  }

  lemma GoneNow(s: State, u: State, ip: nat, added: set<Key>, o: nat)
    requires o < |s.temp| && Mid(s, u, ip, o, added) && SurelyEnters(s, ip, o)
    ensures FlushSlot(u, o, ip, true, true).temp[o] == ZERO_ENTRY
  {
    var d := Dummied(s.temp[o], true);
    SubsetSize(added, Newcomers(s, ip, o));
    AddEntryRefuses(u.(temp := u.temp[o := d]), d);
    hide AddEntry, Newcomers, Inv, Occupied, HasKey;
  }

  lemma {:induction false} SurelyGone(s: State, u: State, ip: nat, i: nat, added: set<Key>, o: nat)
    requires Mid(s, u, ip, i, added) && i <= o < |s.temp| && SurelyEnters(s, ip, o)
    ensures |FlushFrom(u, i, ip, true, true).temp| == |s.temp| && FlushFrom(u, i, ip, true, true).temp[o] == ZERO_ENTRY
    decreases |s.temp| - i
  {
    assert |u.temp| == |s.temp|;
    hide Mid, SurelyEnters, FlushSlot, Entrant, Left;
    var t := FlushSlot(u, i, ip, true, true);
    FlushSlotLeft(u, i, ip);
    if i < o {
      MidStep(s, u, ip, i, added);
      SurelyGone(s, t, ip, i + 1, added + Entrant(u, ip, i), o);
    } else {
      GoneNow(s, u, ip, added, o);
      FlushLeft(t, i + 1, ip);
    }
  }

  lemma {:induction false} SubsetSize(a: set<Key>, b: set<Key>)
    requires a <= b
    ensures |a| <= |b|
    decreases a
  {
    if x :| x in a {
      SubsetSize(a - {x}, b - {x});
    }
  }

  lemma MidStart(s: State, ip: nat)
    requires Inv(s)
    ensures Mid(s, s, ip, 0, {})
  {
  }

  /** Without a collision a dummy flush keeps waiting keys distinct, whatever the driver answers. */
  lemma CarefulFlush(s: State, ip: nat)
    requires Inv(s) && NoCollision(s, ip)
    ensures DistinctKeys(FlushFrom(s, 0, ip, true, true).temp)
  {
    FlushLeft(s, 0, ip);
    MidStart(s, ip);
    var t := FlushFrom(s, 0, ip, true, true);
    forall i, j | 0 <= i < j < |t.temp| && t.temp[i].key == t.temp[j].key ensures t.temp[i].key == ZERO_KEY {
      assert Left(s, s.temp[i], t.temp[i], ip) && Left(s, s.temp[j], t.temp[j], ip);
      if SurelyEnters(s, ip, i) { SurelyGone(s, s, ip, 0, {}, i); }
      if SurelyEnters(s, ip, j) { SurelyGone(s, s, ip, 0, {}, j); }
      hide SurelyEnters, FlushFrom;
    }
  }

  // ---------------------------------------------------------- a driver that collides them

  /** The driver answers every call alike. */
  ghost predicate Uniform(s: State, ok: bool) { forall n: nat :: s.hw.fate(n).ok == ok }

  /** With a granting driver every candidate so far is in the cache, unless the cache is full. */
  ghost predicate Packed(s: State, u: State, ip: nat, i: nat, added: set<Key>)
    requires i <= |s.temp|
  {
    added == Newcomers(s, ip, i) || Occupied(u.cache) == |u.cache|
  }

  lemma CandidateEnters(s: State, u: State, ip: nat, i: nat, added: set<Key>)
    requires Mid(s, u, ip, i, added) && i < |s.temp| && Uniform(s, true) && Candidate(s, s.temp[i], ip)
    requires Occupied(u.cache) < |u.cache| && FlushKey(s, s.temp[i], ip) !in added
    ensures Entrant(u, ip, i) == {FlushKey(s, s.temp[i], ip)}
  {
    var d := Dummied(s.temp[i], true);
    AddEntryRefuses(u.(temp := u.temp[i := d]), d);
    hide AddEntry, Newcomers, Inv, Occupied, HasKey;
  }

  lemma PackedStep(s: State, u: State, ip: nat, i: nat, added: set<Key>)
    requires Mid(s, u, ip, i, added) && i < |s.temp| && Uniform(s, true) && Packed(s, u, ip, i, added)
    ensures Packed(s, FlushSlot(u, i, ip, true, true), ip, i + 1, added + Entrant(u, ip, i))
  {
    var t := FlushSlot(u, i, ip, true, true);
    FlushSlotKeys(u, ip, i);
    EntrantFits(s, u, ip, i, added);
    OccupiedBound(t.cache);
    NewcomersGrow(s, ip, i);
    if Occupied(u.cache) < |u.cache| && Candidate(s, s.temp[i], ip) && FlushKey(s, s.temp[i], ip) !in added {
      CandidateEnters(s, u, ip, i, added);
    }
    hide AddEntry, Newcomers, Inv, FlushSlot, Occupied, HasKey, Mid, Candidate, FlushKey, Fits;
  }

  /** Entry `x` may collide, and the driver is the one that keeps it waiting: a granting one if
      it concerns a sleeping client, else a refusing one. */
  ghost predicate Cornered(s: State, ip: nat, x: nat)
    requires x < |s.temp|
  {
    var k := FlushKey(s, s.temp[x], ip);
    !SurelyEnters(s, ip, x) && k != ZERO_KEY && Uniform(s, OfSleeper(s, k))
  }

  /** The middle of the flush on its way to entry `x`. */
  ghost predicate OnTheWay(s: State, u: State, ip: nat, i: nat, added: set<Key>, x: nat)
    requires i <= x < |s.temp|
  {
    Mid(s, u, ip, i, added) && (OfSleeper(s, FlushKey(s, s.temp[x], ip)) ==> Packed(s, u, ip, i, added))
  }

  lemma WayStep(s: State, u: State, ip: nat, i: nat, added: set<Key>, x: nat)
    requires i < x < |s.temp| && Cornered(s, ip, x) && OnTheWay(s, u, ip, i, added, x)
    ensures |u.temp| == |s.temp| && OnTheWay(s, FlushSlot(u, i, ip, true, true), ip, i + 1, added + Entrant(u, ip, i), x)
  {
    assert |u.temp| == |s.temp|;
    hide Mid, Packed, SurelyEnters, FlushSlot, FlushKey, Entrant;
    MidStep(s, u, ip, i, added);
    if OfSleeper(s, FlushKey(s, s.temp[x], ip)) { PackedStep(s, u, ip, i, added); }
  }

  /** A cornered entry stays. */
  lemma {:induction false} Stays(s: State, u: State, ip: nat, i: nat, added: set<Key>, x: nat)
    requires i <= x < |s.temp| && Cornered(s, ip, x) && OnTheWay(s, u, ip, i, added, x)
    ensures |FlushFrom(u, i, ip, true, true).temp| == |s.temp|
    ensures FlushFrom(u, i, ip, true, true).temp[x].key == FlushKey(s, s.temp[x], ip)
    decreases |s.temp| - i
  {
    assert |u.temp| == |s.temp|;
    hide OnTheWay, Cornered, FlushSlot, Entrant, Left, FlushKey;
    var t := FlushSlot(u, i, ip, true, true);
    FlushSlotLeft(u, i, ip);
    if i < x {
      WayStep(s, u, ip, i, added, x);
      Stays(s, t, ip, i + 1, added + Entrant(u, ip, i), x);
    } else {
      FlushLeft(t, i + 1, ip);
      StaysNow(s, u, ip, added, x);
    }
  }

  lemma StaysNow(s: State, u: State, ip: nat, added: set<Key>, x: nat)
    requires x < |s.temp| && Cornered(s, ip, x) && OnTheWay(s, u, ip, x, added, x)
    ensures FlushSlot(u, x, ip, true, true).temp[x].key == FlushKey(s, s.temp[x], ip)
  {
    if Offered(s, s.temp[x], ip) {
      var d := Dummied(s.temp[x], true);
      var u1 := u.(temp := u.temp[x := d]);
      OccupiedBound(u.cache);
      AddEntryRefuses(u1, d);
      AddEntryKeys(u1, d);
      hide AddEntry, Newcomers, Inv;
      assert AddEntry(u1, d).ret != 0;
    }
  }

  ghost function WithFate(s: State, f: nat -> Answer): State { s.(hw := s.hw.(fate := f)) }

  lemma SameCondition(s: State, f: nat -> Answer, ip: nat, j: nat)
    requires j < |s.temp|
    ensures SurelyEnters(WithFate(s, f), ip, j) <==> SurelyEnters(s, ip, j)
  {
    assert Newcomers(WithFate(s, f), ip, j) == Newcomers(s, ip, j);
  }

  /** If there is a collision, some driver leaves two entries waiting under one key. */
  lemma CollidingDriver(s: State, ip: nat) returns (f: nat -> Answer)
    requires Inv(s) && !NoCollision(s, ip)
    ensures !DistinctKeys(FlushFrom(WithFate(s, f), 0, ip, true, true).temp)
  {
    var i, j :| 0 <= i < j < |s.temp| && FlushKey(s, s.temp[i], ip) == FlushKey(s, s.temp[j], ip)
      && FlushKey(s, s.temp[i], ip) != ZERO_KEY && !SurelyEnters(s, ip, i) && !SurelyEnters(s, ip, j);
    var ok := OfSleeper(s, FlushKey(s, s.temp[i], ip));
    f := n => Answer(ok, 0);
    var r := WithFate(s, f);
    SameCondition(s, f, ip, i);
    SameCondition(s, f, ip, j);
    MidStart(r, ip);
    assert Newcomers(r, ip, 0) == {};
    assert Uniform(r, ok);
    hide SurelyEnters, Newcomers, FlushFrom;
    Stays(r, r, ip, 0, {}, i);
    Stays(r, r, ip, 0, {}, j);
  }

  /** Waiting keys stay distinct for every driver if and only if there is no collision. */
  lemma CollidesIff(s: State, ip: nat)
    requires Inv(s)
    ensures (forall f :: DistinctKeys(FlushFrom(WithFate(s, f), 0, ip, true, true).temp)) <==> NoCollision(s, ip)
  {
    if NoCollision(s, ip) {
      forall f ensures DistinctKeys(FlushFrom(WithFate(s, f), 0, ip, true, true).temp) {
        forall j | 0 <= j < |s.temp| ensures SurelyEnters(WithFate(s, f), ip, j) <==> SurelyEnters(s, ip, j) {
          SameCondition(s, f, ip, j);
        }
        hide SurelyEnters, FlushFrom;
        CarefulFlush(WithFate(s, f), ip);
      }
    } else {
      var f := CollidingDriver(s, ip);
    }
  }
}
