/** Which interfaces hear of which event: the registration blocks read the other way round. */
module IfaceEvents {
  import opened Dispatch
  import opened IfaceRegistration

  predicate Lan(c: Category) { c.LanIf? || c.EthIf? || c.OduRouter? || c.OduBridge? || c.WlanIf? }

  /** Interfaces of category `c` are told of event `ev`. */
  predicate Subscribes(c: Category, ev: nat) {
    if ev == ADDR_ADD || ev == NEIGH_CLIENT_ADD || ev == SW_ROUTING_ENABLE || ev == SW_ROUTING_DISABLE then Lan(c) || c.WanIf?
    else if ev == LAN_DELETE_SELF then Lan(c)
    else if ev == LINK_DOWN then !c.WlanIf? && c != WanIf(WlanWan)
    else if ev == WLAN_LINK_DOWN then c.WlanIf? || c == WanIf(WlanWan)
    else if WAN_UP <= ev <= WAN_DOWN_V6 then c.EthIf? || c.OduRouter?
    else if WAN_UP_TETHER <= ev <= WAN_DOWN_V6_TETHER then c.LanIf? || c.WlanIf?
    else if ev == PRIVATE_SUBNET_CHANGE || ev == TETHERING_STATS_UPDATE then c.LanIf? || c.WlanIf?
    else if ev == CRADLE_WAN_MODE_SWITCH then Lan(c) && !c.OduBridge?
    else if ev == NEIGH_CLIENT_DEL then c.LanIf? || c.OduRouter?
    else if ev == ROUTE_DEL || WLAN_CLIENT_ADD <= ev <= WLAN_CLIENT_RECOVER then c.WlanIf?
    else if ev == CFG_CHANGE then c.LanIf? || c.WanIf?
    else if ev == NETWORK_STATS_UPDATE then c == WanIf(Q6Wan)
    else if ev == WAN_UPSTREAM_ROUTE_ADD || ev == WAN_UPSTREAM_ROUTE_DEL || ev == FIREWALL_CHANGE || ev == WAN_XLAT_CONNECT then c.WanIf?
    else false
  }

  function Times(s: seq<nat>, ev: nat): nat {
    if s == [] then 0 else (if s[0] == ev then 1 else 0) + Times(s[1..], ev)
  }

  /** The blocks register each event of the category once and no other. */
  lemma LanTimes(c: Category, ev: nat)
    requires c.LanIf? || c.EthIf? || c.OduRouter?
    ensures Times(Order(c), ev) == if Subscribes(c, ev) then 1 else 0
  {
    TimesAll(Order(c), ev);
  }

  lemma OtherTimes(c: Category, ev: nat)
    requires c.OduBridge? || c.WlanIf? || c.EmbmsIf?
    ensures Times(Order(c), ev) == if Subscribes(c, ev) then 1 else 0
  {
    TimesAll(Order(c), ev);
  }

  lemma WanTimes(m: WanMode, ev: nat)
    ensures Times(Order(WanIf(m)), ev) == if Subscribes(WanIf(m), ev) then 1 else 0
  {
    TimesAll(Order(WanIf(m)), ev);
  }

  /** With distinct elements, once or not at all. */
  lemma {:induction false} TimesAll(s: seq<nat>, ev: nat)
    ensures Times(s, ev) > 0 <==> ev in s
    ensures (forall i, j | 0 <= i < j < |s| :: s[i] != s[j]) ==> Times(s, ev) <= 1
  {
    if s != [] {
      TimesAll(s[1..], ev);
      assert ev in s <==> ev == s[0] || ev in s[1..];
      if forall i, j | 0 <= i < j < |s| :: s[i] != s[j] {
        forall i, j | 0 <= i < j < |s[1..]| ensures s[1..][i] != s[1..][j] {
          assert s[i + 1] != s[j + 1];
        }
        forall j | 0 <= j < |s[1..]| ensures s[1..][j] != s[0] {
          assert s[0] != s[j + 1];
        }
      }
    }
  }

  lemma {:induction false} BlockCount(l: seq<Reg>, events: seq<nat>, obj: nat, ev: nat)
    requires |l| == |events| && forall i | 0 <= i < |l| :: l[i] == Reg(events[i], obj)
    ensures multiset(l)[Reg(ev, obj)] == Times(events, ev)
  {
    if l != [] {
      BlockCount(l[1..], events[1..], obj, ev);
      assert l == [l[0]] + l[1..];
    }
  }

  lemma {:induction false} Foreign(l: seq<Reg>, obj: nat, ev: nat)
    requires forall i | 0 <= i < |l| :: l[i].obj != obj
    ensures multiset(l)[Reg(ev, obj)] == 0
  {
    if l != [] {
      Foreign(l[1..], obj, ev);
      assert l == [l[0]] + l[1..];
    }
  }

  /** An interface on the list, wherever its block stands, is called once for an event it
      subscribes to and never for any other. */
  lemma Delivered(c: Category, obj: nat, before: seq<Reg>, after: seq<Reg>, ev: nat)
    requires forall i | 0 <= i < |before| :: before[i].obj != obj
    requires forall i | 0 <= i < |after| :: after[i].obj != obj
    ensures var r := Process(Walk([], before + Block(c, obj) + after), ev, []);
      r.Done? && multiset(r.calls)[Reg(ev, obj)] == if Subscribes(c, ev) then 1 else 0
  {
    var l := before + Block(c, obj) + after;
    QuietProcess(Walk([], l), ev);
    MatchingExact(l, ev);
    Foreign(before, obj, ev);
    Foreign(after, obj, ev);
    BlockCount(Block(c, obj), Order(c), obj, ev);
    if c.LanIf? || c.EthIf? || c.OduRouter? { LanTimes(c, ev); }
    else if c.WanIf? { WanTimes(c.mode, ev); }
    else { OtherTimes(c, ev); }
    hide Process, Block, Order, Times, Subscribes, Matching;
  }

  /** In ODU bridge mode there is no WAN interface and the ODU hears of no WAN event; otherwise the
      WAN interface has its mode, and in router mode the ODU hears of WAN up and down. */
  lemma BridgeMode(cat: IfCat, mode: WanMode, oduEnable: bool, oduRouter: bool, ev: nat)
    requires WAN_UP <= ev <= WAN_DOWN_V6_TETHER
    ensures var k := KindOf(cat, mode, oduEnable, oduRouter);
      && (cat.WanCat? ==> (k == Created(WanIf(mode)) <==> !(oduEnable && !oduRouter)) && (k.Unhandled? <==> oduEnable && !oduRouter))
      && (cat.OduCat? ==> k.Created? && (Subscribes(k.c, WAN_UP) <==> oduRouter) && (Subscribes(k.c, ev) ==> oduRouter))
      && (cat.OtherCat? <==> forall m, a, b :: KindOf(cat, m, a, b).Unhandled?)
  {
    assert cat.OtherCat? <==> KindOf(cat, mode, false, false).Unhandled?;
  }

  /** The other categories, told apart by what they hear of: tethered LANs of departing neighbours
      and tethering statistics, Ethernet of WAN events but not of departing neighbours, WLANs of
      their stations, and broadcast interfaces of nothing but a link that goes down. */
  lemma KindHears(cat: IfCat, mode: WanMode, oduEnable: bool, oduRouter: bool)
    requires !cat.WanCat? && !cat.OduCat? && !cat.OtherCat?
    ensures var k := KindOf(cat, mode, oduEnable, oduRouter);
      && k.Created?
      && (cat.LanCat? <==> Subscribes(k.c, NEIGH_CLIENT_DEL) && Subscribes(k.c, TETHERING_STATS_UPDATE))
      && (cat.EthCat? <==> Subscribes(k.c, WAN_UP) && !Subscribes(k.c, NEIGH_CLIENT_DEL))
      && (cat.WlanCat? <==> Subscribes(k.c, WLAN_CLIENT_ADD))
      && (cat.EmbmsCat? <==> Subscribes(k.c, LINK_DOWN) && !Subscribes(k.c, ADDR_ADD))
  {
    var k := KindOf(cat, mode, oduEnable, oduRouter);
    assert k.Created?;
  }
}
