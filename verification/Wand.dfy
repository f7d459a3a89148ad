/** The WAN failover daemon: one pass of its monitor loop, against an explicit kernel. */
module Wand {
  import opened Results

  const FIRST_TABLE_ID := 101

  datatype Uplink = Uplink(name: string, selfIp: string, gateway: string, bandwidthKbit: nat)

  // ----- the kernel, as far as the daemon reads and writes it -----

  datatype Route = Route(gateway: string, dev: string)

  datatype Rule = Rule(from: string, table: nat)

  datatype HtbClass = HtbClass(rateKbit: nat, ceilKbit: nat, prio: nat)

  datatype Port = DestinationPort | SourcePort

  /** One rule of the classify chain: federation traffic leaving `dev`, matched by one port. */
  datatype ChainRule = ChainRule(dev: string, port: Port)

  /** `addrs` says which interface holds an address; `chain` is the classify chain if it exists, and `hooks`
      how often it is hooked into the post-routing chain. */
  datatype Kernel = Kernel(
    addrs: map<string, string>,
    tables: map<nat, Route>,
    rules: seq<Rule>,
    main: Option<Route>,
    qdiscs: map<string, map<string, HtbClass>>,
    chain: Option<seq<ChainRule>>,
    hooks: nat)

  predicate HasDevice(k: Kernel, dev: string) { dev in k.addrs.Values }

  /** A command on an interface that is not there fails, and the daemon ignores failures. */
  function ReplaceTableRoute(k: Kernel, table: nat, r: Route): Kernel {
    if HasDevice(k, r.dev) then k.(tables := k.tables[table := r]) else k
  }

  function DeleteRule(rules: seq<Rule>, ip: string): seq<Rule> {
    if rules == [] then []
    else if rules[0].from == ip then rules[1..]
    else [rules[0]] + DeleteRule(rules[1..], ip)
  }

  function DeleteDefault(k: Kernel): Kernel { k.(main := None) }

  function ReplaceDefault(k: Kernel, r: Route): Kernel {
    if HasDevice(k, r.dev) then k.(main := Some(r)) else k
  }

  function PolicyRouted(k: Kernel, u: Uplink, table: nat, dev: string): Kernel {
    var k1 := ReplaceTableRoute(k, table, Route(u.gateway, dev));
    k1.(rules := DeleteRule(k1.rules, u.selfIp) + [Rule(u.selfIp, table)])
  }

  function RulesFrom(rules: seq<Rule>, ip: string): seq<Rule> {
    if rules == [] then [] else (if rules[0].from == ip then [rules[0]] else []) + RulesFrom(rules[1..], ip)
  }

  /** Traffic from `ip` to the world has a route: a source rule leads to a table that has one, or, where none
      does, the main table has. */
  predicate HasRoute(k: Kernel, ip: string) {
    (exists r | r in RulesFrom(k.rules, ip) :: r.table in k.tables) || k.main.Some?
  }

  // ----- quality of service -----

  datatype QosClass = QosClass(id: string, prio: nat, sharePct: nat)

  const QOS_CLASSES: seq<QosClass> := [QosClass("1:10", 0, 20), QosClass("1:20", 1, 30), QosClass("1:30", 2, 50)]

  function RateOf(bandwidthKbit: nat, sharePct: nat): nat {
    var r := bandwidthKbit * sharePct / 100;
    if r < 1 then 1 else r
  }

  /** The root class and the first `n` leaf classes, on top of what the interface had. */
  function Shaped(classes: map<string, HtbClass>, bandwidthKbit: nat, n: nat): map<string, HtbClass>
    requires n <= |QOS_CLASSES|
  {
    if n == 0 then classes["1:1" := HtbClass(bandwidthKbit, bandwidthKbit, 0)] else
    var c := QOS_CLASSES[n - 1];
    Shaped(classes, bandwidthKbit, n - 1)[c.id := HtbClass(RateOf(bandwidthKbit, c.sharePct), bandwidthKbit, c.prio)]
  }

  function ClassesOf(k: Kernel, dev: string): map<string, HtbClass> { if dev in k.qdiscs then k.qdiscs[dev] else map[] }

  function WithQos(k: Kernel, dev: string, bandwidthKbit: nat): Kernel {
    k.(qdiscs := k.qdiscs[dev := Shaped(ClassesOf(k, dev), bandwidthKbit, |QOS_CLASSES|)],
       chain := Some([ChainRule(dev, DestinationPort), ChainRule(dev, SourcePort)]),
       hooks := if k.hooks == 0 then 1 else k.hooks)
  }

  // ----- the daemon's own state -----

  datatype Status = Status(healthy: bool, attached: bool)

  /** `changed` says whether `set_active` has run since the start. */
  datatype System = System(
    ifaces: seq<Option<string>>,
    status: seq<Status>,
    active: Option<string>,
    changed: bool,
    kernel: Kernel)

  /** What the two probes of one uplink would find: its link, and, given a route, the path beyond it. */
  datatype Probe = Probe(link: bool, path: bool)

  function AddrOf(k: Kernel, ip: string): Option<string> { if ip in k.addrs then Some(k.addrs[ip]) else None }

  /** A ping bound to an interface can only succeed while that interface holds the uplink's address. */
  predicate PingOk(k: Kernel, u: Uplink, dev: string, p: Probe) { p.link && AddrOf(k, u.selfIp) == Some(dev) }

  /** The interface to check: the cached one, or the one now found to hold the address. */
  function Found(us: seq<Uplink>, s: System, i: nat): Option<string>
    requires i < |us| == |s.ifaces|
  {
    if s.ifaces[i].Some? then s.ifaces[i] else AddrOf(s.kernel, us[i].selfIp)
  }

  /** A newly found interface has its table and source rule set up. */
  function Routed(us: seq<Uplink>, s: System, i: nat): Kernel
    requires i < |us| == |s.ifaces|
  {
    if s.ifaces[i].None? && Found(us, s, i).Some?
    then PolicyRouted(s.kernel, us[i], FIRST_TABLE_ID + i, Found(us, s, i).value)
    else s.kernel
  }

  predicate LinkUp(us: seq<Uplink>, s: System, p: Probe, i: nat)
    requires i < |us| == |s.ifaces|
  {
    Found(us, s, i).Some? && PingOk(s.kernel, us[i], Found(us, s, i).value, p)
  }

  /** `check_uplink`: a failed ping drops the cached interface; the path is only probed behind a live link, and
      from the uplink's own address, so it needs a route from there. */
  function Checked(us: seq<Uplink>, s: System, p: Probe, i: nat): System
    requires i < |us| == |s.ifaces|
  {
    s.(ifaces := s.ifaces[i := if LinkUp(us, s, p, i) then Found(us, s, i) else None], kernel := Routed(us, s, i))
  }

  predicate CheckPasses(us: seq<Uplink>, s: System, p: Probe, i: nat)
    requires i < |us| == |s.ifaces|
  {
    LinkUp(us, s, p, i) && p.path && HasRoute(Routed(us, s, i), us[i].selfIp)
  }

  predicate Shape(us: seq<Uplink>, s: System) { |s.ifaces| == |s.status| == |us| }

  /** One turn of the loop over the uplinks: check, and publish the status. */
  function Turn(us: seq<Uplink>, s: System, p: Probe, i: nat): System
    requires i < |us| && Shape(us, s)
  {
    Checked(us, s, p, i).(status := s.status[i := Status(CheckPasses(us, s, p, i), LinkUp(us, s, p, i))])
  }

  datatype Sweep = Sweep(sys: System, ok: seq<bool>)

  function SweepTo(us: seq<Uplink>, s: System, ps: seq<Probe>, n: nat): (r: Sweep)
    requires Shape(us, s) && n <= |us| == |ps|
    ensures Shape(us, r.sys) && |r.ok| == n && r.sys.active == s.active && r.sys.changed == s.changed
  {
    if n == 0 then Sweep(s, []) else
    var before := SweepTo(us, s, ps, n - 1);
    Sweep(Turn(us, before.sys, ps[n - 1], n - 1), before.ok + [CheckPasses(us, before.sys, ps[n - 1], n - 1)])
  }

  /** `min(healthy, key=priority)`: priorities are list positions. */
  function Best(ok: seq<bool>): Option<nat> {
    if ok == [] then None
    else if Best(ok[..|ok| - 1]).Some? then Best(ok[..|ok| - 1])
    else if ok[|ok| - 1] then Some(|ok| - 1) else None
  }

  /** `uplinks_by_name[name]`: the last uplink of that name. */
  function ByName(us: seq<Uplink>, name: string): Option<nat> {
    if us == [] then None
    else if us[|us| - 1].name == name then Some(|us| - 1)
    else ByName(us[..|us| - 1], name)
  }

  function Activated(us: seq<Uplink>, s: System, name: Option<string>): System
    requires Shape(us, s)
  {
    var k := DeleteDefault(s.kernel);
    var k' := match name
      case None => k
      case Some(n) =>
        match ByName(us, n)
        case None => k
        case Some(i) =>
          if i >= |us| then k else
          match s.ifaces[i]
          case None => k
          case Some(dev) => WithQos(ReplaceDefault(k, Route(us[i].gateway, dev)), dev, us[i].bandwidthKbit);
    s.(kernel := k', active := name, changed := true)
  }

  function BestName(us: seq<Uplink>, ok: seq<bool>): Option<string>
    requires |ok| == |us|
  {
    match Best(ok)
    case None => None
    case Some(b) => if b < |us| then Some(us[b].name) else None
  }

  /** One pass of the monitor loop. */
  function Pass(us: seq<Uplink>, s: System, ps: seq<Probe>): (t: System)
    requires Shape(us, s) && |ps| == |us|
    ensures Shape(us, t)
  {
    var sweep := SweepTo(us, s, ps, |us|);
    var name := BestName(us, sweep.ok);
    if name != s.active then Activated(us, sweep.sys, name) else sweep.sys
  }

  lemma {:induction false} BestIs(ok: seq<bool>)
    ensures match Best(ok)
      case None => forall i | 0 <= i < |ok| :: !ok[i]
      case Some(b) => b < |ok| && ok[b] && forall i | 0 <= i < b :: !ok[i]
  {
    if ok != [] { BestIs(ok[..|ok| - 1]); }
  }

  predicate DistinctUplinks(us: seq<Uplink>) {
    forall i, j | 0 <= i < j < |us| :: us[i].name != us[j].name && us[i].selfIp != us[j].selfIp
  }

  lemma {:induction false} ByNameIs(us: seq<Uplink>, i: nat)
    requires DistinctUplinks(us) && i < |us|
    ensures ByName(us, us[i].name) == Some(i)
  {
    if i < |us| - 1 {
      ByNameIs(us[..|us| - 1], i);
    }
  }

  /** A turn touches its own uplink's cached interface, the tables and the rules, and nothing else. */
  lemma TurnFrame(us: seq<Uplink>, s: System, p: Probe, i: nat)
    requires i < |us| && Shape(us, s)
    ensures var t := Turn(us, s, p, i);
      && t.kernel.addrs == s.kernel.addrs && t.kernel.main == s.kernel.main && t.kernel.qdiscs == s.kernel.qdiscs
      && t.kernel.chain == s.kernel.chain && t.kernel.hooks == s.kernel.hooks
      && forall j | 0 <= j < |us| && j != i :: t.ifaces[j] == s.ifaces[j]
  {
  }

  /** The sweep leaves the default route and the shaping alone. */
  lemma {:induction false} SweepFrame(us: seq<Uplink>, s: System, ps: seq<Probe>, n: nat)
    requires Shape(us, s) && n <= |us| == |ps|
    ensures var t := SweepTo(us, s, ps, n).sys;
      && t.kernel.addrs == s.kernel.addrs && t.kernel.main == s.kernel.main && t.kernel.qdiscs == s.kernel.qdiscs
      && t.kernel.chain == s.kernel.chain && t.kernel.hooks == s.kernel.hooks
      && forall j | n <= j < |us| :: t.ifaces[j] == s.ifaces[j]
  {
    if n > 0 {
      SweepFrame(us, s, ps, n - 1);
      TurnFrame(us, SweepTo(us, s, ps, n - 1).sys, ps[n - 1], n - 1);
    }
  }

  /** Once an uplink's turn is over, the rest of the sweep does not change its verdict or its interface. */
  lemma {:induction false} SweepKeeps(us: seq<Uplink>, s: System, ps: seq<Probe>, n: nat, i: nat)
    requires Shape(us, s) && i < n <= |us| == |ps|
    ensures var r, mine := SweepTo(us, s, ps, n), SweepTo(us, s, ps, i + 1);
      r.ok[i] == mine.ok[i] && r.sys.ifaces[i] == mine.sys.ifaces[i]
  {
    if i < n - 1 {
      SweepKeeps(us, s, ps, n - 1, i);
      TurnFrame(us, SweepTo(us, s, ps, n - 1).sys, ps[n - 1], n - 1);
    }
  }

  /** After a sweep, an uplink that passed has its interface cached, and a cached interface holds its
      uplink's address. */
  lemma SweepHasInterface(us: seq<Uplink>, s: System, ps: seq<Probe>, n: nat, i: nat)
    requires Shape(us, s) && i < n <= |us| == |ps|
    ensures var r := SweepTo(us, s, ps, n);
      && (r.ok[i] ==> r.sys.ifaces[i].Some?)
      && (r.sys.ifaces[i].Some? ==> r.sys.ifaces[i] == AddrOf(s.kernel, us[i].selfIp))
  {
    SweepKeeps(us, s, ps, n, i);
    SweepFrame(us, s, ps, i);
  }

  // ----- the daemon -----

  class Daemon {
    const uplinks: seq<Uplink>
    var ifaces: seq<Option<string>>
    var status: seq<Status>
    var active: Option<string>
    var changed: bool
    var kernel: Kernel

    ghost predicate Valid()
      reads this
    {
      |ifaces| == |status| == |uplinks| && DistinctUplinks(uplinks)
    }

    function Sys(): System
      reads this
    {
      System(ifaces, status, active, changed, kernel)
    }

    /** At start nothing is cached, healthy or active. */
    constructor (us: seq<Uplink>, k: Kernel)
      requires DistinctUplinks(us)
      ensures Valid() && uplinks == us
      ensures Sys() == System(seq(|us|, _ => None), seq(|us|, _ => Status(false, false)), None, false, k)
    {
      uplinks := us;
      ifaces := seq(|us|, _ => None);
      status := seq(|us|, _ => Status(false, false));
      active, changed, kernel := None, false, k;
    }

    method SetupPolicyRouting(i: nat)
      requires Valid() && i < |uplinks| && ifaces[i].Some?
      modifies this`kernel
      ensures kernel == PolicyRouted(old(kernel), uplinks[i], FIRST_TABLE_ID + i, ifaces[i].value)
    {
      var u, dev, table := uplinks[i], ifaces[i].value, FIRST_TABLE_ID + i;
      kernel := ReplaceTableRoute(kernel, table, Route(u.gateway, dev));
      kernel := kernel.(rules := DeleteRule(kernel.rules, u.selfIp));
      kernel := kernel.(rules := kernel.rules + [Rule(u.selfIp, table)]);
    }

    method CheckUplink(i: nat, p: Probe) returns (ok: bool)
      requires Valid() && i < |uplinks|
      modifies this`ifaces, this`kernel
      ensures Valid() && Sys() == Checked(uplinks, old(Sys()), p, i) && ok == CheckPasses(uplinks, old(Sys()), p, i)
    {
      if ifaces[i].None? {
        ifaces := ifaces[i := AddrOf(kernel, uplinks[i].selfIp)];
        if ifaces[i].Some? {
          SetupPolicyRouting(i);
        }
      }
      if ifaces[i].None? {
        assert ifaces == old(ifaces);
        return false;
      }
      if !PingOk(kernel, uplinks[i], ifaces[i].value, p) {
        ifaces := ifaces[i := None];
        return false;
      }
      return p.path && HasRoute(kernel, uplinks[i].selfIp);
    }

    method SetupQos(dev: string, bandwidthKbit: nat)
      modifies this`kernel
      ensures kernel == WithQos(old(kernel), dev, bandwidthKbit)
    {
      var classes := ClassesOf(kernel, dev)["1:1" := HtbClass(bandwidthKbit, bandwidthKbit, 0)];
      var n := 0;
      while n < |QOS_CLASSES|
        invariant n <= |QOS_CLASSES| && kernel == old(kernel)
        invariant classes == Shaped(ClassesOf(kernel, dev), bandwidthKbit, n)
      {
        var c := QOS_CLASSES[n];
        classes := classes[c.id := HtbClass(RateOf(bandwidthKbit, c.sharePct), bandwidthKbit, c.prio)];
        n := n + 1;
      }
      kernel := kernel.(qdiscs := kernel.qdiscs[dev := classes]);
      if kernel.chain.None? {
        kernel := kernel.(chain := Some([]));
      }
      kernel := kernel.(chain := Some([]));
      kernel := kernel.(chain := Some(kernel.chain.value + [ChainRule(dev, DestinationPort)]));
      kernel := kernel.(chain := Some(kernel.chain.value + [ChainRule(dev, SourcePort)]));
      assert kernel.chain.value == [ChainRule(dev, DestinationPort), ChainRule(dev, SourcePort)];
      if kernel.hooks == 0 {
        kernel := kernel.(hooks := kernel.hooks + 1);
      }
    }

    /** The named uplink must have an interface: no command is ever given a missing one. */
    method SetActive(name: Option<string>)
      requires Valid()
      requires name.Some? ==>
        && ByName(uplinks, name.value).Some? && ByName(uplinks, name.value).value < |uplinks|
        && ifaces[ByName(uplinks, name.value).value].Some?
      modifies this`kernel, this`active, this`changed
      ensures Sys() == Activated(uplinks, old(Sys()), name)
    {
      kernel := DeleteDefault(kernel);
      if name.Some? {
        var i := ByName(uplinks, name.value).value;
        var dev := ifaces[i].value;
        kernel := ReplaceDefault(kernel, Route(uplinks[i].gateway, dev));
        SetupQos(dev, uplinks[i].bandwidthKbit);
      }
      active, changed := name, true;
    }

    method MonitorPass(ps: seq<Probe>)
      requires Valid() && |ps| == |uplinks|
      modifies this
      ensures Valid() && Sys() == Pass(uplinks, old(Sys()), ps)
    {
      var ok: seq<bool>, i := [], 0;
      while i < |uplinks|
        invariant i <= |uplinks| && Valid()
        invariant Sweep(Sys(), ok) == SweepTo(uplinks, old(Sys()), ps, i)
      {
        var healthy := CheckUplink(i, ps[i]);
        status := status[i := Status(healthy, ifaces[i].Some?)];
        ok := ok + [healthy];
        i := i + 1;
      }
      BestIs(ok);
      var best := BestName(uplinks, ok);
      if best != active {
        if best.Some? {
          SweepHasInterface(uplinks, old(Sys()), ps, |uplinks|, Best(ok).value);
          ByNameIs(uplinks, Best(ok).value);
        }
        SetActive(best);
      }
    }
  }
}
