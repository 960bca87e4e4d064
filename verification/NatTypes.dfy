/** Values shared by the NAT connection cache and the NAT hardware driver.
    Addresses, ports, protocols and handles are only ever compared with each other and
    with zero by the modelled code, so their widths are not modelled. */
module NatTypes {

  /** The five fields that identify a connection in every comparison of NatApp. */
  datatype Key = Key(privateIp: nat, privatePort: nat, targetIp: nat, targetPort: nat, protocol: nat)

  const ZERO_KEY := Key(0, 0, 0, 0, 0)

  predicate FullKey(k: Key) {
    k.privateIp != 0 && k.targetIp != 0 && k.privatePort != 0 && k.targetPort != 0 && k.protocol != 0
  }

  /** What the hardware is given: the key and the public port. */
  datatype Rule = Rule(key: Key, publicPort: nat)

  datatype Entry = Entry(key: Key, publicIp: nat, publicPort: nat, timestamp: nat,
                         dstNat: bool, enabled: bool, hdl: nat)

  const ZERO_ENTRY := Entry(ZERO_KEY, 0, 0, 0, false, false, 0)

  function RuleOf(e: Entry): Rule { Rule(e.key, e.publicPort) }

  /** Index of the first slot at or after `i` that holds `k`, or the length. */
  function FirstKey(c: seq<Entry>, k: Key, i: nat): (r: nat)
    requires i <= |c|
    ensures i <= r <= |c|
    ensures r < |c| ==> c[r].key == k
    ensures forall j | i <= j < r :: c[j].key != k
    decreases |c| - i
  {
    if i == |c| || c[i].key == k then i else FirstKey(c, k, i + 1)
  }

  ghost predicate HasKey(c: seq<Entry>, k: Key) {
    exists i :: 0 <= i < |c| && c[i].key == k
  }

  /** Index of the first occurrence of `x` at or after `i`, or the length. */
  function FirstOf(a: seq<nat>, x: nat, i: nat): (r: nat)
    requires i <= |a|
    ensures i <= r <= |a|
    ensures r < |a| ==> a[r] == x
    ensures forall j | i <= j < r :: a[j] != x
    decreases |a| - i
  {
    if i == |a| || a[i] == x then i else FirstOf(a, x, i + 1)
  }

  /** `a` with its first `x`, if any, replaced by `y`. */
  function ReplaceFirst(a: seq<nat>, x: nat, y: nat): (r: seq<nat>)
    ensures |r| == |a|
  {
    var i := FirstOf(a, x, 0);
    if i < |a| then a[i := y] else a
  }

  predicate Distinct(a: seq<nat>) {
    forall i, j :: 0 <= i < j < |a| && a[i] == a[j] ==> a[i] == 0
  }
}
