/** The NAT hardware driver as seen by NatApp: whether a table exists, the live
    rules by handle, and an oracle that decides the outcome of every call. */
module NatHardware {
  import opened NatTypes

  datatype Answer = Answer(ok: bool, hint: nat)

  datatype Hw = Hw(table: bool, rules: map<nat, Rule>, calls: nat, fate: nat -> Answer)

  datatype Reply = Reply(hw: Hw, ok: bool, hdl: nat)

  function KeysFrom(rules: map<nat, Rule>, h: nat): set<nat> { set k | k in rules && k >= h }

  /** First unused non-zero handle at or after `h`. */
  function FreeHandle(rules: map<nat, Rule>, h: nat): (r: nat)
    ensures r != 0 && r !in rules
    ensures h != 0 && h !in rules ==> r == h
    decreases |KeysFrom(rules, h)|, if h == 0 then 1 else 0
  {
    if h == 0 then
      assert KeysFrom(rules, 1) == KeysFrom(rules, 0) - {0};
      FreeHandle(rules, 1)
    else if h !in rules then h
    else
      assert KeysFrom(rules, h + 1) == KeysFrom(rules, h) - {h};
      assert h in KeysFrom(rules, h);
      FreeHandle(rules, h + 1)
  }

  /** A table can be created only when there is none; a failed call zeroes the
      caller's table handle. */
  function CreateTable(hw: Hw): Reply {
    var ok := hw.fate(hw.calls).ok && !hw.table;
    if ok then Reply(hw.(table := true, rules := map[], calls := hw.calls + 1), true, 1)
    else Reply(hw.(calls := hw.calls + 1), false, 0)
  }

  function DropTable(hw: Hw, tbl: nat): Reply {
    var ok := hw.fate(hw.calls).ok && tbl != 0 && hw.table;
    if ok then Reply(hw.(table := false, rules := map[], calls := hw.calls + 1), true, tbl)
    else Reply(hw.(calls := hw.calls + 1), false, tbl)
  }

  /** The handle written by a failed call is arbitrary. */
  function InsertRule(hw: Hw, tbl: nat, r: Rule): Reply {
    var a := hw.fate(hw.calls);
    if a.ok && tbl != 0 && hw.table then
      var h := FreeHandle(hw.rules, a.hint);
      Reply(hw.(rules := hw.rules[h := r], calls := hw.calls + 1), true, h)
    else Reply(hw.(calls := hw.calls + 1), false, a.hint)
  }

  function RemoveRule(hw: Hw, tbl: nat, h: nat): Reply {
    if hw.fate(hw.calls).ok && tbl != 0 && h != 0 && hw.table && h in hw.rules then
      Reply(hw.(rules := hw.rules - {h}, calls := hw.calls + 1), true, h)
    else Reply(hw.(calls := hw.calls + 1), false, h)
  }

  /** Every call numbered in [a, b) is answered with success by the oracle. */
  ghost predicate Granted(fate: nat -> Answer, a: nat, b: nat) {
    forall k: nat :: a <= k < b ==> fate(k).ok
  }

  class Driver {
    const fate: nat -> Answer
    var table: bool
    var rules: map<nat, Rule>
    var calls: nat

    constructor (fate: nat -> Answer)
      ensures Value() == Hw(false, map[], 0, fate)
    {
      this.fate := fate;
      table, rules, calls := false, map[], 0;
    }

    ghost function Value(): Hw
      reads this
    {
      Hw(table, rules, calls, fate)
    }

    method AddTable() returns (ok: bool, tbl: nat)
      modifies this
      ensures Reply(Value(), ok, tbl) == CreateTable(old(Value()))
    {
      ok := fate(calls).ok && !table;
      calls := calls + 1;
      tbl := 0;
      if ok {
        table, rules, tbl := true, map[], 1;
      }
    }

    method DelTable(tbl: nat) returns (ok: bool)
      modifies this
      ensures Reply(Value(), ok, tbl) == DropTable(old(Value()), tbl)
    {
      ok := fate(calls).ok && tbl != 0 && table;
      calls := calls + 1;
      if ok {
        table, rules := false, map[];
      }
    }

    method AddRule(tbl: nat, r: Rule) returns (ok: bool, hdl: nat)
      modifies this
      ensures Reply(Value(), ok, hdl) == InsertRule(old(Value()), tbl, r)
    {
      var a := fate(calls);
      calls := calls + 1;
      ok, hdl := a.ok && tbl != 0 && table, a.hint;
      if ok {
        hdl := FreeHandle(rules, a.hint);
        rules := rules[hdl := r];
      }
    }

    method DelRule(tbl: nat, h: nat) returns (ok: bool)
      modifies this
      ensures Reply(Value(), ok, h) == RemoveRule(old(Value()), tbl, h)
    {
      ok := fate(calls).ok && tbl != 0 && h != 0 && table && h in rules;
      calls := calls + 1;
      if ok {
        rules := rules - {h};
      }
    }
  }
}
