/** Which events each kind of interface registers for, in order, and why an interface may
    delete itself from its IPA_LAN_DELETE_SELF callback and a WAN interface from its link-down
    callback. Events are numbered as in the source's enumeration; the Android branches are taken. */
module IfaceRegistration {
  import opened Dispatch

  const CFG_CHANGE := 0
  const PRIVATE_SUBNET_CHANGE := 1
  const FIREWALL_CHANGE := 2
  const LINK_DOWN := 4
  const ADDR_ADD := 8
  const ROUTE_DEL := 11
  const WAN_UPSTREAM_ROUTE_ADD := 12
  const WAN_UPSTREAM_ROUTE_DEL := 13
  const WLAN_LINK_DOWN := 16
  const WLAN_CLIENT_ADD := 17
  const WLAN_CLIENT_ADD_EX := 18
  const WLAN_CLIENT_DEL := 19
  const WLAN_CLIENT_POWER_SAVE := 20
  const WLAN_CLIENT_RECOVER := 21
  const NEIGH_CLIENT_ADD := 24
  const NEIGH_CLIENT_DEL := 25
  const SW_ROUTING_ENABLE := 26
  const SW_ROUTING_DISABLE := 27
  const CRADLE_WAN_MODE_SWITCH := 34
  const WAN_XLAT_CONNECT := 35
  const TETHERING_STATS_UPDATE := 36
  const NETWORK_STATS_UPDATE := 37
  const WAN_UP := 39
  const WAN_DOWN := 40
  const WAN_UP_V6 := 41
  const WAN_DOWN_V6 := 42
  const WAN_UP_TETHER := 43
  const WAN_DOWN_TETHER := 44
  const WAN_UP_V6_TETHER := 45
  const WAN_DOWN_V6_TETHER := 46
  const LAN_DELETE_SELF := 54

  datatype WanMode = Q6Wan | WlanWan | EcmWan
  datatype Category = LanIf | EthIf | OduRouter | OduBridge | WlanIf | WanIf(mode: WanMode) | EmbmsIf

  function Order(c: Category): seq<nat> {
    match c
    case LanIf => [ADDR_ADD, NEIGH_CLIENT_ADD, NEIGH_CLIENT_DEL, SW_ROUTING_ENABLE, SW_ROUTING_DISABLE,
                   WAN_UP_TETHER, WAN_UP_V6_TETHER, WAN_DOWN_TETHER, WAN_DOWN_V6_TETHER, CFG_CHANGE,
                   PRIVATE_SUBNET_CHANGE, TETHERING_STATS_UPDATE, CRADLE_WAN_MODE_SWITCH, LINK_DOWN] + [LAN_DELETE_SELF]
    case EthIf => [ADDR_ADD, NEIGH_CLIENT_ADD, SW_ROUTING_ENABLE, SW_ROUTING_DISABLE, WAN_UP, WAN_UP_V6,
                   WAN_DOWN, WAN_DOWN_V6, CRADLE_WAN_MODE_SWITCH, LINK_DOWN] + [LAN_DELETE_SELF]
    case OduRouter => [ADDR_ADD, NEIGH_CLIENT_ADD, NEIGH_CLIENT_DEL, SW_ROUTING_ENABLE, SW_ROUTING_DISABLE, WAN_UP,
                       WAN_UP_V6, WAN_DOWN, WAN_DOWN_V6, CRADLE_WAN_MODE_SWITCH, LINK_DOWN] + [LAN_DELETE_SELF]
    case OduBridge => [ADDR_ADD, NEIGH_CLIENT_ADD, SW_ROUTING_ENABLE, SW_ROUTING_DISABLE, LINK_DOWN] + [LAN_DELETE_SELF]
    case WlanIf => [ADDR_ADD, ROUTE_DEL, WLAN_CLIENT_ADD, WLAN_CLIENT_ADD_EX, WLAN_CLIENT_DEL, WLAN_CLIENT_POWER_SAVE,
                    WLAN_CLIENT_RECOVER, NEIGH_CLIENT_ADD, SW_ROUTING_ENABLE, SW_ROUTING_DISABLE, WAN_UP_TETHER,
                    WAN_UP_V6_TETHER, WAN_DOWN_TETHER, WAN_DOWN_V6_TETHER, PRIVATE_SUBNET_CHANGE,
                    CRADLE_WAN_MODE_SWITCH, WLAN_LINK_DOWN, TETHERING_STATS_UPDATE] + [LAN_DELETE_SELF]
    case WanIf(m) => [ADDR_ADD, WAN_UPSTREAM_ROUTE_ADD, WAN_UPSTREAM_ROUTE_DEL]
                     + (if m.Q6Wan? then [NETWORK_STATS_UPDATE] else [])
                     + [FIREWALL_CHANGE, NEIGH_CLIENT_ADD, SW_ROUTING_ENABLE, SW_ROUTING_DISABLE, CFG_CHANGE, WAN_XLAT_CONNECT]
                     + (if m.WlanWan? then [WLAN_LINK_DOWN] else [LINK_DOWN])
    case EmbmsIf => [LINK_DOWN]
  }

  /** The interface categories of the configuration. */
  datatype IfCat = LanCat | EthCat | OduCat | WlanCat | WanCat | EmbmsCat | OtherCat

  /** What an interface of category `cat` is created as, if at all: a WAN interface is not
      created in ODU bridge mode, an unhandled category never. */
  datatype Kind = Created(c: Category) | Unhandled

  function KindOf(cat: IfCat, mode: WanMode, oduEnable: bool, oduRouter: bool): Kind {
    match cat
    case LanCat => Created(LanIf)
    case EthCat => Created(EthIf)
    case OduCat => Created(if oduRouter then OduRouter else OduBridge)
    case WlanCat => Created(WlanIf)
    case WanCat => if !oduEnable || oduRouter then Created(WanIf(mode)) else Unhandled
    case EmbmsCat => Created(EmbmsIf)
    case OtherCat => Unhandled
  }

  function Block(c: Category, obj: nat): seq<Reg> { seq(|Order(c)|, i requires 0 <= i < |Order(c)| => Reg(Order(c)[i], obj)) }

  /** Changes of the listener list: a new interface, another listener's registration, a deletion. */
  datatype Move = Create(c: Category, obj: nat) | Register(r: Reg) | Deregister(obj: nat)

  /** The events after which an interface may delete itself. */
  predicate Final(ev: nat) { ev == LAN_DELETE_SELF || ev == LINK_DOWN || ev == WLAN_LINK_DOWN }

  /** A new interface is a new object; only interfaces register for final events, and an
      interface registers for nothing after its creation. */
  ghost predicate Allowed(l: seq<Reg>, m: Move) {
    match m
    case Create(_, o) => forall i | 0 <= i < |l| :: l[i].obj != o
    case Register(r) => !Final(r.event) && forall i | 0 <= i < |l| :: Final(l[i].event) ==> l[i].obj != r.obj
    case Deregister(_) => true
  }

  function Moved(l: seq<Reg>, m: Move): seq<Reg> {
    match m
    case Create(c, o) => l + Block(c, o)
    case Register(r) => l + [r]
    case Deregister(o) => Without(l, o)
  }

  /** The listeners that may delete themselves from their callback for a final event: all of them
      for LAN_DELETE_SELF, and for link-down events those that do not wait for LAN_DELETE_SELF,
      which are the WAN interfaces. */
  ghost predicate MayDelete(l: seq<Reg>, ev: nat, obj: nat) { ev == LAN_DELETE_SELF || Reg(LAN_DELETE_SELF, obj) !in l }

  ghost function Deleters(l: seq<Reg>, ev: nat): set<nat> { set i | 0 <= i < |l| && MayDelete(l, ev, l[i].obj) :: l[i].obj }

  /** No node of a listener in `who` follows that listener's node for `ev`. */
  ghost predicate LastFor(l: seq<Reg>, ev: nat, who: set<nat>) {
    forall i, j | 0 <= i < j < |l| :: l[i].event == ev && l[i].obj in who ==> l[j].obj != l[i].obj
  }

  /** Every listener that may delete itself for a final event does so from its last node. */
  ghost predicate Ordered(l: seq<Reg>) { forall ev | Final(ev) :: LastFor(l, ev, Deleters(l, ev)) }

  /** In every category a final event is registered last, link-down events only if
      LAN_DELETE_SELF is not registered. */
  lemma OrderEndsFinal(c: Category, i: nat)
    requires i < |Order(c)| && Final(Order(c)[i])
    requires Order(c)[i] == LAN_DELETE_SELF || LAN_DELETE_SELF !in Order(c)
    ensures i == |Order(c)| - 1
  {
    var o := Order(c);
    assert o[|o| - 1] == LAN_DELETE_SELF ==> LAN_DELETE_SELF in o;
  }

  lemma {:induction false} WithoutLastFor(l: seq<Reg>, o: nat, ev: nat, who: set<nat>)
    requires LastFor(l, ev, who)
    ensures LastFor(Without(l, o), ev, who)
    ensures forall i | 0 <= i < |Without(l, o)| :: Without(l, o)[i] in l
  {
    if l != [] {
      var m := l[..|l| - 1];
      WithoutLastFor(m, o, ev, who);
      forall i | 0 <= i < |Without(m, o)| && Without(m, o)[i].event == ev && Without(m, o)[i].obj in who
        ensures Without(m, o)[i].obj != l[|l| - 1].obj
      {
        var k :| 0 <= k < |m| && m[k] == Without(m, o)[i];
        assert l[k] == m[k];
      }
    }
  }

  /** Deregistration takes all nodes of a listener, so the others may delete themselves as before. */
  lemma WithoutOrdered(l: seq<Reg>, o: nat, ev: nat)
    requires LastFor(l, ev, Deleters(l, ev))
    ensures LastFor(Without(l, o), ev, Deleters(Without(l, o), ev))
  {
    var r := Without(l, o);
    WithoutLastFor(l, o, ev, Deleters(l, ev));
    WithoutExact(l, o);
    forall x | x in Deleters(r, ev) ensures x in Deleters(l, ev) {
      var i :| 0 <= i < |r| && r[i].obj == x && MayDelete(r, ev, x);
      var k :| 0 <= k < |l| && l[k] == r[i];
      var self := Reg(LAN_DELETE_SELF, x);
      assert multiset(r)[self] == multiset(l)[self];
      assert self in l <==> self in multiset(l);
      assert self in r <==> self in multiset(r);
    }
  }

  lemma CreateOrdered(l: seq<Reg>, c: Category, o: nat, ev: nat)
    requires Final(ev) && LastFor(l, ev, Deleters(l, ev)) && Allowed(l, Create(c, o))
    ensures LastFor(l + Block(c, o), ev, Deleters(l + Block(c, o), ev))
  {
    var b := Block(c, o);
    var n := l + b;
    forall i, j | 0 <= i < j < |n| && n[i].event == ev && n[i].obj in Deleters(n, ev) ensures n[j].obj != n[i].obj {
      if i < |l| {
        var self := Reg(LAN_DELETE_SELF, l[i].obj);
        if self in l {
          assert self in n;
        }
        assert n[i].obj in Deleters(l, ev);
      } else {
        SelfInBlock(l, c, o);
        OrderEndsFinal(c, i - |l|);
        assert false;
      }
    }
  }

  lemma SelfInBlock(l: seq<Reg>, c: Category, o: nat)
    ensures LAN_DELETE_SELF in Order(c) ==> Reg(LAN_DELETE_SELF, o) in l + Block(c, o)
  {
    if LAN_DELETE_SELF in Order(c) {
      var i :| 0 <= i < |Order(c)| && Order(c)[i] == LAN_DELETE_SELF;
      assert (l + Block(c, o))[|l| + i] == Reg(LAN_DELETE_SELF, o);
    }
  }

  lemma RegisterOrdered(l: seq<Reg>, r: Reg, ev: nat)
    requires Final(ev) && LastFor(l, ev, Deleters(l, ev)) && Allowed(l, Register(r))
    ensures LastFor(l + [r], ev, Deleters(l + [r], ev))
  {
    var n := l + [r];
    forall i, j | 0 <= i < j < |n| && n[i].event == ev && n[i].obj in Deleters(n, ev) ensures n[j].obj != n[i].obj {
      var self := Reg(LAN_DELETE_SELF, l[i].obj);
      if self in l {
        assert self in n;
      }
      assert l[i].obj in Deleters(l, ev);
    }
  }

  lemma MovedOrdered(l: seq<Reg>, m: Move)
    requires Ordered(l) && Allowed(l, m)
    ensures Ordered(Moved(l, m))
  {
    forall ev | Final(ev) ensures LastFor(Moved(l, m), ev, Deleters(Moved(l, m), ev)) {
      match m
      case Create(c, o) => CreateOrdered(l, c, o, ev);
      case Register(r) => RegisterOrdered(l, r, ev);
      case Deregister(o) => WithoutOrdered(l, o, ev);
    }
  }

  ghost predicate Reachable(l: seq<Reg>, moves: seq<Move>)
    decreases |moves|
  {
    moves == [] || (Allowed(l, moves[0]) && Reachable(Moved(l, moves[0]), moves[1..]))
  }

  ghost function ListAfter(l: seq<Reg>, moves: seq<Move>): seq<Reg>
    decreases |moves|
  {
    if moves == [] then l else ListAfter(Moved(l, moves[0]), moves[1..])
  }

  lemma {:induction false} AlwaysOrdered(l: seq<Reg>, moves: seq<Move>)
    requires Ordered(l) && Reachable(l, moves)
    ensures Ordered(ListAfter(l, moves))
    decreases |moves|
  {
    if moves != [] {
      MovedOrdered(l, moves[0]);
      AlwaysOrdered(Moved(l, moves[0]), moves[1..]);
    }
  }

  /** Each callback of this dispatch does nothing or, if its listener is in `who`, deregisters it. */
  ghost predicate SelfOnly(w: Walk, ev: nat, script: seq<seq<Action>>, who: set<nat>)
    decreases |script|, if w.Walk? then |w.rest| + 1 else 0
  {
    w.Freed? || w.rest == [] || script == [] ||
      var n := w.rest[0];
      var w1 := Walk(w.done + [n], w.rest[1..]);
      if n.event != ev then SelfOnly(w1, ev, script, who)
      else
        && (script[0] == [] || (n.obj in who && script[0] == [Remove(n.obj)]))
        && SelfOnly(ActAll(w1, script[0]), ev, script[1..], who)
  }

  lemma {:induction false} SelfOnlyExact(w: Walk, ev: nat, script: seq<seq<Action>>, who: set<nat>)
    requires w.Walk? && LastFor(w.rest, ev, who) && SelfOnly(w, ev, script, who)
    ensures var r := Process(w, ev, script); r.Done? && r.calls == Matching(w.rest, ev)
    decreases |script|, |w.rest|
  {
    if script == [] {
      QuietProcess(w, ev);
    } else if w.rest != [] {
      var n := w.rest[0];
      var w1 := Walk(w.done + [n], w.rest[1..]);
      assert forall j | 0 <= j < |w1.rest| :: w1.rest[j] == w.rest[j + 1];
      if n.event != ev {
        SelfOnlyExact(w1, ev, script, who);
      } else {
        if script[0] != [] {
          WithoutNone(w1.rest, n.obj);
          assert script[0][1..] == [];
          assert ActAll(w1, script[0]) == ActAll(Act(w1, script[0][0]), []);
        }
        SelfOnlyExact(ActAll(w1, script[0]), ev, script[1..], who);
      }
    }
  }

  /** On every reachable listener list, dispatching a final event, LAN_DELETE_SELF or a link-down
      event, to interfaces that may delete themselves reads no freed node and calls exactly the
      registered interfaces, each once and in order. */
  lemma SelfDeleteSafe(moves: seq<Move>, ev: nat, script: seq<seq<Action>>)
    requires Final(ev) && Reachable([], moves)
    requires SelfOnly(Walk([], ListAfter([], moves)), ev, script, Deleters(ListAfter([], moves), ev))
    ensures var r := Process(Walk([], ListAfter([], moves)), ev, script);
      r.Done? && r.calls == Matching(ListAfter([], moves), ev)
  {
    var l := ListAfter([], moves);
    AlwaysOrdered([], moves);
    SelfOnlyExact(Walk([], l), ev, script, Deleters(l, ev));
  }

  /** A WAN interface on the list is one of those that may delete themselves for a link-down event. */
  lemma WanMayDelete(before: seq<Reg>, m: WanMode, obj: nat, after: seq<Reg>)
    requires forall i | 0 <= i < |before| :: before[i].obj != obj
    requires forall i | 0 <= i < |after| :: after[i].obj != obj
    ensures var l := before + Block(WanIf(m), obj) + after;
      obj in Deleters(l, LINK_DOWN) && obj in Deleters(l, WLAN_LINK_DOWN)
  {
    var b := Block(WanIf(m), obj);
    var l := before + b + after;
    assert forall i | 0 <= i < |b| :: b[i].event != LAN_DELETE_SELF;
    assert l[|before|] == b[0];
    assert Reg(LAN_DELETE_SELF, obj) !in l;
  }

  /** `n` callbacks that leave the list alone. */
  function Quiet(n: nat): seq<seq<Action>> { if n == 0 then [] else [[]] + Quiet(n - 1) }

  lemma {:induction false} QuietPrefix(done: seq<Reg>, a: seq<Reg>, b: seq<Reg>, ev: nat, script: seq<seq<Action>>)
    requires Process(Walk(done + a, b), ev, script).UseAfterFree?
    ensures Process(Walk(done, a + b), ev, Quiet(|Matching(a, ev)|) + script).UseAfterFree?
    decreases |a|
  {
    if a == [] {
      assert done + a == done && a + b == b && Quiet(0) + script == script;
    } else {
      assert (a + b)[0] == a[0] && (a + b)[1..] == a[1..] + b && done + a == (done + [a[0]]) + a[1..];
      QuietPrefix(done + [a[0]], a[1..], b, ev, script);
      if a[0].event == ev {
        var todo := Quiet(|Matching(a, ev)|) + script;
        assert todo[0] == [] && todo[1..] == Quiet(|Matching(a[1..], ev)|) + script;
      }
    }
  }

  /** The order matters: an ECM WAN interface anywhere on the list that deletes itself from its
      CFG_CHANGE callback, where no other callback changes the list, makes the dispatch read a
      freed node, its own WAN_XLAT_CONNECT registration. */
  lemma ConfigChangeFrees(obj: nat, before: seq<Reg>, after: seq<Reg>)
    ensures Process(Walk([], before + (Block(WanIf(EcmWan), obj) + after)), CFG_CHANGE,
                    Quiet(|Matching(before, CFG_CHANGE)|) + [[Remove(obj)]]).UseAfterFree?
  {
    hide Block, Process, Matching, Quiet;
    var b := Block(WanIf(EcmWan), obj);
    EcmBlock(obj);
    OwnNextFreed(before + b[..7], b[7..] + after, CFG_CHANGE);
    NoneMatching(b[..7], CFG_CHANGE);
    assert Quiet(|Matching(b[..7], CFG_CHANGE)|) + [[Remove(obj)]] == [[Remove(obj)]] by { QuietNone(); }
    QuietPrefix(before, b[..7], b[7..] + after, CFG_CHANGE, [[Remove(obj)]]);
    assert b[..7] + (b[7..] + after) == b + after && [] + before == before;
    QuietPrefix([], before, b + after, CFG_CHANGE, [[Remove(obj)]]);
  }

  lemma QuietNone()
    ensures Quiet(0) == []
  {
  }

  lemma EcmBlock(obj: nat)
    ensures var b := Block(WanIf(EcmWan), obj);
      && |b| == 10 && b[7] == Reg(CFG_CHANGE, obj) && b[8] == Reg(WAN_XLAT_CONNECT, obj)
      && forall i | 0 <= i < 7 :: b[i].event != CFG_CHANGE
  {
  }

  /** A listener that deregisters itself while the next node is its own. */
  lemma OwnNextFreed(done: seq<Reg>, rest: seq<Reg>, ev: nat)
    requires |rest| > 1 && rest[0].event == ev && rest[1].obj == rest[0].obj
    ensures Process(Walk(done, rest), ev, [[Remove(rest[0].obj)]]).UseAfterFree?
  {
    var acts := [Remove(rest[0].obj)];
    assert acts[0] == Remove(rest[0].obj);
    FreedIff(Walk(done + [rest[0]], rest[1..]), acts);
    assert [acts][0] == acts;
  }

  lemma {:induction false} NoneMatching(l: seq<Reg>, ev: nat)
    requires forall i | 0 <= i < |l| :: l[i].event != ev
    ensures Matching(l, ev) == []
  {
    if l != [] {
      NoneMatching(l[1..], ev);
    }
  }

  /** The shortest such list: the interface alone. */
  lemma ConfigChangeReached(obj: nat)
    ensures Reachable([], [Create(WanIf(EcmWan), obj)])
    ensures Process(Walk([], ListAfter([], [Create(WanIf(EcmWan), obj)])), CFG_CHANGE, [[Remove(obj)]]).UseAfterFree?
  {
    var moves := [Create(WanIf(EcmWan), obj)];
    var b := Block(WanIf(EcmWan), obj);
    assert Moved([], moves[0]) == b && moves[1..] == [] && ListAfter(b, []) == b;
    assert Reachable(b, moves[1..]);
    ConfigChangeFrees(obj, [], []);
    assert [] + (b + []) == b && Quiet(0) + [[Remove(obj)]] == [[Remove(obj)]];
  }
}
