/** The failover daemon over whole runs: which uplink is active, and whether the kernel agrees. */
module WandLaws {
  import opened Results
  import opened Wand

  // ----- who passes the check -----

  /** The uplink passed its check when its turn came. */
  predicate Passes(us: seq<Uplink>, s: System, ps: seq<Probe>, i: nat)
    requires Shape(us, s) && i < |us| == |ps|
  {
    CheckPasses(us, SweepTo(us, s, ps, i).sys, ps[i], i)
  }

  lemma SweepVerdict(us: seq<Uplink>, s: System, ps: seq<Probe>, n: nat, i: nat)
    requires Shape(us, s) && i < n <= |us| == |ps|
    ensures var r := SweepTo(us, s, ps, n);
      && (r.ok[i] <==> Passes(us, s, ps, i))
      && (r.ok[i] ==> r.sys.ifaces[i] == AddrOf(s.kernel, us[i].selfIp))
      && (r.sys.ifaces[i].Some? ==> r.sys.ifaces[i] == AddrOf(s.kernel, us[i].selfIp))
  {
    SweepKeeps(us, s, ps, n, i);
    SweepFrame(us, s, ps, i);
  }

  ghost predicate BestPassing(us: seq<Uplink>, s: System, ps: seq<Probe>, b: nat)
    requires Shape(us, s) && |us| == |ps|
  {
    b < |us| && Passes(us, s, ps, b) && forall i | 0 <= i < b :: !Passes(us, s, ps, i)
  }

  /** After a pass the active uplink is the most preferred one that passed its check, or none if none did. */
  lemma ActiveIsBest(us: seq<Uplink>, s: System, ps: seq<Probe>)
    requires Shape(us, s) && |ps| == |us|
    ensures match Pass(us, s, ps).active
      case None => forall i | 0 <= i < |us| :: !Passes(us, s, ps, i)
      case Some(name) => exists b: nat :: BestPassing(us, s, ps, b) && us[b].name == name
  {
    var sweep := SweepTo(us, s, ps, |us|);
    BestIs(sweep.ok);
    forall i | 0 <= i < |us| ensures sweep.ok[i] <==> Passes(us, s, ps, i) {
      SweepVerdict(us, s, ps, |us|, i);
    }
    if Best(sweep.ok).Some? {
      assert BestPassing(us, s, ps, Best(sweep.ok).value);
    }
  }

  /** Routes and shaping are rewritten only when the best uplink changes. */
  lemma NoChangeNoRewrite(us: seq<Uplink>, s: System, ps: seq<Probe>)
    requires Shape(us, s) && |ps| == |us| && Pass(us, s, ps).active == s.active
    ensures var t := Pass(us, s, ps);
      && t.kernel.main == s.kernel.main && t.kernel.qdiscs == s.kernel.qdiscs && t.kernel.chain == s.kernel.chain
      && t.kernel.hooks == s.kernel.hooks && t.changed == s.changed
  {
    SweepFrame(us, s, ps, |us|);
  }

  // ----- source rules -----

  lemma {:induction false} RulesFromDelete(rules: seq<Rule>, gone: string, ip: string)
    ensures RulesFrom(DeleteRule(rules, gone), ip) ==
      if ip == gone && RulesFrom(rules, ip) != [] then RulesFrom(rules, ip)[1..] else RulesFrom(rules, ip)
  {
    if rules != [] && rules[0].from != gone {
      RulesFromDelete(rules[1..], gone, ip);
      assert ([rules[0]] + DeleteRule(rules[1..], gone))[1..] == DeleteRule(rules[1..], gone);
    }
  }

  lemma {:induction false} RulesFromAppend(rules: seq<Rule>, r: Rule, ip: string)
    ensures RulesFrom(rules + [r], ip) == RulesFrom(rules, ip) + if r.from == ip then [r] else []
  {
    if rules == [] {
      assert rules + [r] == [r] && [r][1..] == [];
    } else {
      RulesFromAppend(rules[1..], r, ip);
      assert (rules + [r])[1..] == rules[1..] + [r];
    }
  }

  // ----- when the kernel agrees with the daemon -----

  function TableOf(i: nat): nat { FIRST_TABLE_ID + i }

  /** One source rule leads from the uplink's address to its own table, and that table leads nowhere but out of
      `dev` to the uplink's gateway. */
  predicate Ruled(us: seq<Uplink>, k: Kernel, i: nat, dev: string)
    requires i < |us|
  {
    && RulesFrom(k.rules, us[i].selfIp) == [Rule(us[i].selfIp, TableOf(i))]
    && (TableOf(i) in k.tables ==> k.tables[TableOf(i)] == Route(us[i].gateway, dev))
  }

  /** And the table has that route. */
  predicate TableOk(us: seq<Uplink>, k: Kernel, i: nat, dev: string)
    requires i < |us|
  {
    Ruled(us, k, i, dev) && TableOf(i) in k.tables
  }

  predicate AtMostOneRule(us: seq<Uplink>, k: Kernel) {
    forall i | 0 <= i < |us| :: |RulesFrom(k.rules, us[i].selfIp)| <= 1
  }

  predicate IsShaped(k: Kernel, dev: string, bandwidthKbit: nat) {
    && dev in k.qdiscs && "1:1" in k.qdiscs[dev] && k.qdiscs[dev]["1:1"] == HtbClass(bandwidthKbit, bandwidthKbit, 0)
    && forall c | c in QOS_CLASSES ::
      c.id in k.qdiscs[dev] && k.qdiscs[dev][c.id] == HtbClass(RateOf(bandwidthKbit, c.sharePct), bandwidthKbit, c.prio)
  }

  predicate IsClassified(k: Kernel, dev: string) {
    k.chain == Some([ChainRule(dev, DestinationPort), ChainRule(dev, SourcePort)]) && k.hooks == 1
  }

  /** The uplink's cached interface, when it still holds the uplink's address. */
  predicate Current(us: seq<Uplink>, s: System, i: nat, dev: string)
    requires Shape(us, s) && i < |us|
  {
    s.ifaces[i] == Some(dev) && AddrOf(s.kernel, us[i].selfIp) == Some(dev)
  }

  /** The active uplink's index. */
  predicate IsActive(us: seq<Uplink>, s: System, b: nat) { b < |us| && s.active == Some(us[b].name) }

  /** The active uplink carries the default route, and its interface is shaped. */
  predicate Carries(us: seq<Uplink>, k: Kernel, b: nat, dev: string)
    requires b < |us|
  {
    k.main == Some(Route(us[b].gateway, dev)) && IsShaped(k, dev, us[b].bandwidthKbit)
  }

  /** The rules and tables of every uplink that has an interface. */
  ghost predicate Tables(us: seq<Uplink>, s: System) {
    && Shape(us, s) && DistinctUplinks(us) && AtMostOneRule(us, s.kernel)
    && forall i | 0 <= i < |us| && s.ifaces[i].Some? :: Ruled(us, s.kernel, i, s.ifaces[i].value)
  }

  /** What holds when a pass begins, whatever came and went before it: the active uplink carries the default
      route, or has lost it together with the route in its own table. */
  ghost predicate Consistent(us: seq<Uplink>, s: System) {
    && Tables(us, s) && s.kernel.hooks <= 1
    && (s.active.Some? ==> s.changed && exists b: nat :: IsActive(us, s, b))
    && (s.changed && s.active.None? ==> s.kernel.main == None)
    && (forall b: nat | IsActive(us, s, b) ::
      && s.ifaces[b].Some? && IsClassified(s.kernel, s.ifaces[b].value)
      && (Carries(us, s.kernel, b, s.ifaces[b].value) || (s.kernel.main.None? && TableOf(b) !in s.kernel.tables)))
  }

  /** What holds after a pass: everything cached is true, and the active uplink carries the default route. */
  ghost predicate Agreed(us: seq<Uplink>, s: System) {
    && Consistent(us, s)
    && (forall i | 0 <= i < |us| && s.ifaces[i].Some? :: Current(us, s, i, s.ifaces[i].value))
    && (forall b: nat | IsActive(us, s, b) :: Carries(us, s.kernel, b, s.ifaces[b].value))
  }

  // ----- the sweep keeps it -----

  /** The uplink's rules and table are the same in both. */
  predicate SameTable(us: seq<Uplink>, k: Kernel, k': Kernel, i: nat)
    requires i < |us|
  {
    && RulesFrom(k'.rules, us[i].selfIp) == RulesFrom(k.rules, us[i].selfIp)
    && (TableOf(i) in k'.tables <==> TableOf(i) in k.tables)
    && (TableOf(i) in k.tables ==> k'.tables[TableOf(i)] == k.tables[TableOf(i)])
  }

  lemma DiscoveryRules(us: seq<Uplink>, k: Kernel, i: nat, dev: string, j: nat)
    requires DistinctUplinks(us) && i < |us| && j < |us| && HasDevice(k, dev)
    requires |RulesFrom(k.rules, us[i].selfIp)| <= 1
    ensures var k' := PolicyRouted(k, us[i], TableOf(i), dev);
      && (j != i ==> SameTable(us, k, k', j))
      && TableOk(us, k', i, dev)
  {
    var u := us[i];
    RulesFromDelete(k.rules, u.selfIp, us[j].selfIp);
    RulesFromDelete(k.rules, u.selfIp, u.selfIp);
    RulesFromAppend(DeleteRule(k.rules, u.selfIp), Rule(u.selfIp, TableOf(i)), us[j].selfIp);
    RulesFromAppend(DeleteRule(k.rules, u.selfIp), Rule(u.selfIp, TableOf(i)), u.selfIp);
  }

  /** A turn finds an uplink's interface and sets up its table, or leaves rules and tables alone. */
  lemma TurnTables(us: seq<Uplink>, s: System, p: Probe, i: nat, j: nat)
    requires i < |us| && j < |us| && Shape(us, s) && DistinctUplinks(us) && AtMostOneRule(us, s.kernel)
    ensures var t := Turn(us, s, p, i);
      && (j != i || s.ifaces[i].Some? ==> SameTable(us, s.kernel, t.kernel, j))
      && (j == i && s.ifaces[i].None? && t.ifaces[i].Some? ==> TableOk(us, t.kernel, i, t.ifaces[i].value))
      && |RulesFrom(t.kernel.rules, us[j].selfIp)| <= 1
  {
    var now := AddrOf(s.kernel, us[i].selfIp);
    if s.ifaces[i].None? && now.Some? {
      assert HasDevice(s.kernel, now.value);
      DiscoveryRules(us, s.kernel, i, now.value, j);
    }
  }

  /** What a sweep up to `n` has done to uplink `i`. */
  ghost predicate Swept(us: seq<Uplink>, s: System, r: System, n: nat, i: nat)
    requires Shape(us, s) && Shape(us, r) && i < |us|
  {
    && (i >= n || s.ifaces[i].Some? ==> SameTable(us, s.kernel, r.kernel, i))
    && (i >= n ==> r.ifaces[i] == s.ifaces[i])
    && (s.ifaces[i].Some? && r.ifaces[i].Some? ==> r.ifaces[i] == s.ifaces[i])
    && (s.ifaces[i].None? && r.ifaces[i].Some? ==> TableOk(us, r.kernel, i, r.ifaces[i].value))
  }

  lemma TurnSweeps(us: seq<Uplink>, s: System, r: System, p: Probe, n: nat, i: nat)
    requires Shape(us, s) && Shape(us, r) && n < |us| && i < |us| && DistinctUplinks(us)
    requires AtMostOneRule(us, r.kernel) && Swept(us, s, r, n, i)
    ensures Swept(us, s, Turn(us, r, p, n), n + 1, i)
  {
    TurnTables(us, r, p, n, i);
    TurnFrame(us, r, p, n);
  }

  lemma {:induction false} SweepTables(us: seq<Uplink>, s: System, ps: seq<Probe>, n: nat)
    requires Shape(us, s) && DistinctUplinks(us) && AtMostOneRule(us, s.kernel) && n <= |us| == |ps|
    ensures var r := SweepTo(us, s, ps, n).sys;
      AtMostOneRule(us, r.kernel) && forall i | 0 <= i < |us| :: Swept(us, s, r, n, i)
  {
    if n > 0 {
      SweepTables(us, s, ps, n - 1);
      var before := SweepTo(us, s, ps, n - 1).sys;
      forall i | 0 <= i < |us|
        ensures Swept(us, s, Turn(us, before, ps[n - 1], n - 1), n, i)
        ensures |RulesFrom(Turn(us, before, ps[n - 1], n - 1).kernel.rules, us[i].selfIp)| <= 1
      {
        TurnSweeps(us, s, before, ps[n - 1], n - 1, i);
        TurnTables(us, before, ps[n - 1], n - 1, i);
      }
    }
  }

  /** An uplink that is where the daemon thinks it is, with a live link and path, and a route to probe the path by:
      its own table's, or failing that the default route. */
  predicate Alive(us: seq<Uplink>, s: System, ps: seq<Probe>, i: nat)
    requires Shape(us, s) && i < |us| == |ps|
  {
    var now := AddrOf(s.kernel, us[i].selfIp);
    && ps[i].link && ps[i].path && now.Some?
    && (s.ifaces[i].None? || (s.ifaces[i] == now && (TableOf(i) in s.kernel.tables || s.kernel.main.Some?)))
  }

  /** The check, read off the state a pass begins in. */
  lemma PassesIff(us: seq<Uplink>, s: System, ps: seq<Probe>, i: nat)
    requires Tables(us, s) && i < |us| == |ps|
    ensures Passes(us, s, ps, i) <==> Alive(us, s, ps, i)
  {
    var before := SweepTo(us, s, ps, i).sys;
    SweepTables(us, s, ps, i);
    SweepFrame(us, s, ps, i);
    var now := AddrOf(s.kernel, us[i].selfIp);
    assert Swept(us, s, before, i, i);
    if s.ifaces[i].Some? {
      assert RulesFrom(before.kernel.rules, us[i].selfIp) == [Rule(us[i].selfIp, TableOf(i))];
      assert Rule(us[i].selfIp, TableOf(i)) in RulesFrom(before.kernel.rules, us[i].selfIp);
    } else if now.Some? {
      assert HasDevice(before.kernel, now.value);
      DiscoveryRules(us, before.kernel, i, now.value, i);
      var routed := Routed(us, before, i);
      assert RulesFrom(routed.rules, us[i].selfIp)[0] in RulesFrom(routed.rules, us[i].selfIp);
    }
  }

  // ----- one pass -----

  lemma {:induction false} ShapedHas(classes: map<string, HtbClass>, bandwidthKbit: nat)
    ensures var r := Shaped(classes, bandwidthKbit, 3);
      && "1:1" in r && r["1:1"] == HtbClass(bandwidthKbit, bandwidthKbit, 0)
      && forall c | c in QOS_CLASSES ::
        c.id in r && r[c.id] == HtbClass(RateOf(bandwidthKbit, c.sharePct), bandwidthKbit, c.prio)
  {
    var a, b, c := QOS_CLASSES[0], QOS_CLASSES[1], QOS_CLASSES[2];
    assert |"1:1"| == 3 && |a.id| == |b.id| == |c.id| == 4;
    assert a.id[2] == '1' && b.id[2] == '2' && c.id[2] == '3';
    var s0, s1 := Shaped(classes, bandwidthKbit, 0), Shaped(classes, bandwidthKbit, 1);
    var s2 := Shaped(classes, bandwidthKbit, 2);
    assert s1 == s0[a.id := HtbClass(RateOf(bandwidthKbit, 20), bandwidthKbit, 0)];
    assert s2 == s1[b.id := HtbClass(RateOf(bandwidthKbit, 30), bandwidthKbit, 1)];
  }

  lemma OnlyActive(us: seq<Uplink>, s: System, b: nat, c: nat)
    requires DistinctUplinks(us) && IsActive(us, s, b) && IsActive(us, s, c)
    ensures b == c
  {
  }

  /** All that matters of a sweep. */
  ghost predicate SweepResult(us: seq<Uplink>, s: System, ps: seq<Probe>, r: Sweep) {
    && Shape(us, s) && Shape(us, r.sys) && |r.ok| == |us| == |ps|
    && r.sys.active == s.active && r.sys.changed == s.changed
    && r.sys.kernel.addrs == s.kernel.addrs && r.sys.kernel.main == s.kernel.main
    && r.sys.kernel.qdiscs == s.kernel.qdiscs
    && r.sys.kernel.chain == s.kernel.chain && r.sys.kernel.hooks == s.kernel.hooks
    && AtMostOneRule(us, r.sys.kernel)
    && forall i | 0 <= i < |us| ::
      && (r.ok[i] <==> Passes(us, s, ps, i)) && Swept(us, s, r.sys, |us|, i)
      && (r.ok[i] ==> r.sys.ifaces[i].Some?)
      && (r.sys.ifaces[i].Some? ==> Current(us, r.sys, i, r.sys.ifaces[i].value))
  }

  lemma SweepGives(us: seq<Uplink>, s: System, ps: seq<Probe>)
    requires Shape(us, s) && |ps| == |us| && DistinctUplinks(us) && AtMostOneRule(us, s.kernel)
    ensures SweepResult(us, s, ps, SweepTo(us, s, ps, |us|))
  {
    SweepFrame(us, s, ps, |us|);
    SweepTables(us, s, ps, |us|);
    var r := SweepTo(us, s, ps, |us|);
    forall i | 0 <= i < |us|
      ensures (r.ok[i] <==> Passes(us, s, ps, i)) && (r.ok[i] ==> r.sys.ifaces[i].Some?)
      ensures r.sys.ifaces[i].Some? ==> Current(us, r.sys, i, r.sys.ifaces[i].value)
    {
      SweepVerdict(us, s, ps, |us|, i);
      SweepHasInterface(us, s, ps, |us|, i);
    }
  }

  lemma SweptTables(us: seq<Uplink>, s: System, ps: seq<Probe>, r: Sweep)
    requires Tables(us, s) && SweepResult(us, s, ps, r)
    ensures Tables(us, r.sys)
  {
    forall i | 0 <= i < |us| && r.sys.ifaces[i].Some? ensures Ruled(us, r.sys.kernel, i, r.sys.ifaces[i].value) {
      assert Swept(us, s, r.sys, |us|, i);
    }
  }

  lemma BestByName(us: seq<Uplink>, ok: seq<bool>, c: nat)
    requires |ok| == |us| && DistinctUplinks(us) && c < |us| && BestName(us, ok) == Some(us[c].name)
    ensures Best(ok) == Some(c) && ok[c]
  {
    BestIs(ok);
    var b := Best(ok).value;
    assert us[b].name == us[c].name;
  }

  /** The best uplink was active already. It passed its check, so it had a route, and it had not lost its own
      without losing the default route: it still carries it. */
  lemma ActiveStays(us: seq<Uplink>, s: System, ps: seq<Probe>, r: Sweep, b: nat)
    requires Consistent(us, s) && SweepResult(us, s, ps, r) && IsActive(us, s, b) && r.ok[b]
    ensures r.sys.ifaces[b] == s.ifaces[b] && Carries(us, r.sys.kernel, b, s.ifaces[b].value)
  {
    PassesIff(us, s, ps, b);
    assert Swept(us, s, r.sys, |us|, b);
  }

  /** Nothing is rewritten, and nothing needs to be. */
  lemma UnchangedAgrees(us: seq<Uplink>, s: System, ps: seq<Probe>, r: Sweep)
    requires Consistent(us, s) && SweepResult(us, s, ps, r) && BestName(us, r.ok) == s.active
    ensures Agreed(us, r.sys)
  {
    SweptTables(us, s, ps, r);
    if s.active.Some? {
      var b: nat :| IsActive(us, s, b);
      BestByName(us, r.ok, b);
      ActiveStays(us, s, ps, r, b);
      assert IsActive(us, r.sys, b);
      forall c: nat | IsActive(us, r.sys, c) ensures c == b {
        OnlyActive(us, s, b, c);
      }
    }
  }

  /** Activating an uplink that passed its check puts everything in place. */
  lemma ActivatedAgrees(us: seq<Uplink>, s: System, b: nat)
    requires Tables(us, s) && b < |us| && s.ifaces[b].Some? && s.kernel.hooks <= 1
    requires forall i | 0 <= i < |us| && s.ifaces[i].Some? :: Current(us, s, i, s.ifaces[i].value)
    ensures Agreed(us, Activated(us, s, Some(us[b].name)))
  {
    var t, dev := Activated(us, s, Some(us[b].name)), s.ifaces[b].value;
    ByNameIs(us, b);
    assert Current(us, s, b, dev);
    assert HasDevice(s.kernel, dev);
    ShapedHas(ClassesOf(s.kernel, dev), us[b].bandwidthKbit);
    assert IsActive(us, t, b) && Carries(us, t.kernel, b, dev);
    forall i | 0 <= i < |us| && t.ifaces[i].Some?
      ensures Current(us, t, i, t.ifaces[i].value) && Ruled(us, t.kernel, i, t.ifaces[i].value)
    {
      assert Current(us, s, i, s.ifaces[i].value);
    }
    forall c: nat | IsActive(us, t, c) ensures c == b {
      OnlyActive(us, t, b, c);
    }
  }

  lemma DeactivatedAgrees(us: seq<Uplink>, s: System)
    requires Tables(us, s) && s.kernel.hooks <= 1
    requires forall i | 0 <= i < |us| && s.ifaces[i].Some? :: Current(us, s, i, s.ifaces[i].value)
    ensures Agreed(us, Activated(us, s, None)) && Activated(us, s, None).kernel.main == None
  {
    var t := Activated(us, s, None);
    forall i | 0 <= i < |us| && t.ifaces[i].Some?
      ensures Current(us, t, i, t.ifaces[i].value) && Ruled(us, t.kernel, i, t.ifaces[i].value)
    {
      assert Current(us, s, i, s.ifaces[i].value);
    }
  }

  lemma ChangedAgrees(us: seq<Uplink>, s: System, ps: seq<Probe>, r: Sweep)
    requires Consistent(us, s) && SweepResult(us, s, ps, r)
    ensures Agreed(us, Activated(us, r.sys, BestName(us, r.ok)))
  {
    SweptTables(us, s, ps, r);
    BestIs(r.ok);
    if BestName(us, r.ok).Some? {
      ActivatedAgrees(us, r.sys, Best(r.ok).value);
    } else {
      DeactivatedAgrees(us, r.sys);
    }
  }

  /** From any consistent state, a pass ends with daemon and kernel agreeing. */
  lemma PassAgrees(us: seq<Uplink>, s: System, ps: seq<Probe>)
    requires |ps| == |us| && Consistent(us, s)
    ensures Agreed(us, Pass(us, s, ps))
  {
    SweepGives(us, s, ps);
    if BestName(us, SweepTo(us, s, ps, |us|).ok) == s.active {
      UnchangedAgrees(us, s, ps, SweepTo(us, s, ps, |us|));
    } else {
      ChangedAgrees(us, s, ps, SweepTo(us, s, ps, |us|));
    }
  }

  // ----- between two passes -----

  /** An interface comes or goes; a departing one takes its routes and its shaping with it. */
  datatype NetEvent = Attach(ip: string, dev: string) | Detach(ip: string)

  function Happens(k: Kernel, e: NetEvent): Kernel {
    match e
    case Attach(ip, dev) => if ip in k.addrs || HasDevice(k, dev) then k else k.(addrs := k.addrs[ip := dev])
    case Detach(ip) =>
      if ip !in k.addrs then k else
      var dev := k.addrs[ip];
      k.(addrs := k.addrs - {ip},
         tables := map t | t in k.tables && k.tables[t].dev != dev :: k.tables[t],
         main := if k.main.Some? && k.main.value.dev == dev then None else k.main,
         qdiscs := k.qdiscs - {dev})
  }

  function AllHappen(k: Kernel, es: seq<NetEvent>): Kernel
    decreases es
  {
    if es == [] then k else AllHappen(Happens(k, es[0]), es[1..])
  }

  /** The interfaces that went away at some point. */
  function Flushed(k: Kernel, es: seq<NetEvent>): set<string>
    decreases es
  {
    if es == [] then {} else
    (if es[0].Detach? && es[0].ip in k.addrs then {k.addrs[es[0].ip]} else {}) + Flushed(Happens(k, es[0]), es[1..])
  }

  function After(s: System, es: seq<NetEvent>): System { s.(kernel := AllHappen(s.kernel, es)) }

  /** What led out of an interface is still there exactly when the interface never went away. */
  lemma {:induction false} Survives(k: Kernel, es: seq<NetEvent>, dev: string)
    ensures var k' := AllHappen(k, es);
      && k'.rules == k.rules && k'.chain == k.chain && k'.hooks == k.hooks && (k.main == None ==> k'.main == None)
      && (k.main.Some? && k.main.value.dev == dev ==> k'.main == if dev in Flushed(k, es) then None else k.main)
      && (dev !in Flushed(k, es) && dev in k.qdiscs ==> dev in k'.qdiscs && k'.qdiscs[dev] == k.qdiscs[dev])
    decreases es
  {
    if es != [] {
      Survives(Happens(k, es[0]), es[1..], dev);
    }
  }

  lemma {:induction false} TableSurvives(k: Kernel, es: seq<NetEvent>, t: nat)
    ensures var k' := AllHappen(k, es);
      && (t in k'.tables <==> t in k.tables && k.tables[t].dev !in Flushed(k, es))
      && (t in k'.tables ==> k'.tables[t] == k.tables[t])
    decreases es
  {
    if es != [] {
      TableSurvives(Happens(k, es[0]), es[1..], t);
    }
  }

  /** Whatever comes and goes between two passes. */
  lemma EventsKeepConsistent(us: seq<Uplink>, s: System, es: seq<NetEvent>)
    requires Agreed(us, s)
    ensures Consistent(us, After(s, es))
  {
    var t := After(s, es);
    Survives(s.kernel, es, "");
    forall i | 0 <= i < |us| && t.ifaces[i].Some? ensures Ruled(us, t.kernel, i, t.ifaces[i].value) {
      TableSurvives(s.kernel, es, TableOf(i));
    }
    if s.active.Some? {
      var b: nat :| IsActive(us, s, b);
      assert IsActive(us, t, b);
    }
    forall b: nat | IsActive(us, t, b)
      ensures
        && t.ifaces[b].Some? && IsClassified(t.kernel, t.ifaces[b].value)
        && (Carries(us, t.kernel, b, t.ifaces[b].value) || (t.kernel.main.None? && TableOf(b) !in t.kernel.tables))
    {
      assert IsActive(us, s, b);
      Survives(s.kernel, es, s.ifaces[b].value);
      TableSurvives(s.kernel, es, TableOf(b));
    }
  }

  // ----- whole runs -----

  datatype Round = Round(events: seq<NetEvent>, probes: seq<Probe>)

  predicate AreRounds(us: seq<Uplink>, rounds: seq<Round>) {
    forall i | 0 <= i < |rounds| :: |rounds[i].probes| == |us|
  }

  function AfterRound(us: seq<Uplink>, s: System, r: Round): (t: System)
    requires Shape(us, s) && |r.probes| == |us|
    ensures Shape(us, t)
  {
    Pass(us, After(s, r.events), r.probes)
  }

  function AfterAll(us: seq<Uplink>, s: System, rounds: seq<Round>): (t: System)
    requires Shape(us, s) && AreRounds(us, rounds)
    ensures Shape(us, t)
  {
    if rounds == [] then s
    else AfterRound(us, AfterAll(us, s, rounds[..|rounds| - 1]), rounds[|rounds| - 1])
  }

  function Start(us: seq<Uplink>, k: Kernel): (s: System)
    ensures Shape(us, s)
  {
    System(seq(|us|, _ => None), seq(|us|, _ => Status(false, false)), None, false, k)
  }

  lemma StartAgrees(us: seq<Uplink>, k: Kernel)
    requires DistinctUplinks(us) && AtMostOneRule(us, k) && k.hooks <= 1
    ensures Agreed(us, Start(us, k))
  {
  }

  lemma {:induction false} RunAgrees(us: seq<Uplink>, s: System, rounds: seq<Round>)
    requires Agreed(us, s) && AreRounds(us, rounds)
    ensures Agreed(us, AfterAll(us, s, rounds))
  {
    if rounds != [] {
      var front, r := rounds[..|rounds| - 1], rounds[|rounds| - 1];
      RunAgrees(us, s, front);
      var t := AfterAll(us, s, front);
      EventsKeepConsistent(us, t, r.events);
      PassAgrees(us, After(t, r.events), r.probes);
    }
  }

  /** From the start of the daemon, through any attaching, detaching and probing whatever, after every pass: the
      default route leads to the active uplink's gateway out of its current interface, or is absent when none is
      active; that interface is shaped and classified exactly once; and every attached uplink has exactly one source
      rule, to its own table, which leads nowhere but out of its own interface. */
  lemma RunsAgree(us: seq<Uplink>, k: Kernel, rounds: seq<Round>)
    requires DistinctUplinks(us) && AtMostOneRule(us, k) && k.hooks <= 1 && AreRounds(us, rounds)
    ensures var s := AfterAll(us, Start(us, k), rounds);
      && (s.changed && s.active.None? ==> s.kernel.main == None)
      && (forall b: nat | IsActive(us, s, b) ::
        && s.ifaces[b].Some? && s.kernel.main == Some(Route(us[b].gateway, s.ifaces[b].value))
        && AddrOf(s.kernel, us[b].selfIp) == s.ifaces[b]
        && IsShaped(s.kernel, s.ifaces[b].value, us[b].bandwidthKbit) && IsClassified(s.kernel, s.ifaces[b].value))
      && (forall i | 0 <= i < |us| && s.ifaces[i].Some? ::
        AddrOf(s.kernel, us[i].selfIp) == s.ifaces[i] && Ruled(us, s.kernel, i, s.ifaces[i].value))
  {
    StartAgrees(us, k);
    RunAgrees(us, Start(us, k), rounds);
    var s := AfterAll(us, Start(us, k), rounds);
    forall i | 0 <= i < |us| && s.ifaces[i].Some? ensures Current(us, s, i, s.ifaces[i].value) {}
  }

  // ----- what goes unseen -----

  /** What a round does to the table of an uplink that has an interface after it. */
  lemma RoundTable(us: seq<Uplink>, s: System, r: Round, i: nat)
    requires Agreed(us, s) && |r.probes| == |us| && i < |us|
    ensures var t := AfterRound(us, s, r);
      t.ifaces[i].Some? ==>
        && (s.ifaces[i].Some? ==> t.ifaces[i] == s.ifaces[i])
        && (TableOf(i) in t.kernel.tables <==>
          s.ifaces[i].None? || (TableOf(i) in s.kernel.tables && s.ifaces[i].value !in Flushed(s.kernel, r.events)))
  {
    var s' := After(s, r.events);
    EventsKeepConsistent(us, s, r.events);
    SweepGives(us, s', r.probes);
    TableSurvives(s.kernel, r.events, TableOf(i));
    var sweep := SweepTo(us, s', r.probes, |us|);
    assert Swept(us, s', sweep.sys, |us|, i);
    ActivatedFrame(us, sweep.sys, BestName(us, sweep.ok));
  }

  lemma ActivatedFrame(us: seq<Uplink>, s: System, name: Option<string>)
    requires Shape(us, s)
    ensures var t := Activated(us, s, name); t.ifaces == s.ifaces && t.kernel.tables == s.kernel.tables
  {
  }

  /** Since the daemon last found the uplink's interface, that interface has not gone away and come back between two
      passes. */
  predicate Uninterrupted(us: seq<Uplink>, s: System, rounds: seq<Round>, i: nat)
    requires Shape(us, s) && AreRounds(us, rounds) && i < |us|
  {
    rounds != [] ==>
      var front, last := rounds[..|rounds| - 1], rounds[|rounds| - 1];
      var t := AfterAll(us, s, front);
      t.ifaces[i].None? || (Uninterrupted(us, s, front, i) && t.ifaces[i].value !in Flushed(t.kernel, last.events))
  }

  lemma {:induction false} TableAgreesIff(us: seq<Uplink>, s: System, rounds: seq<Round>, i: nat)
    requires Agreed(us, s) && AreRounds(us, rounds) && i < |us| && s.ifaces[i].None?
    ensures var t := AfterAll(us, s, rounds);
      t.ifaces[i].Some? ==> (TableOk(us, t.kernel, i, t.ifaces[i].value) <==> Uninterrupted(us, s, rounds, i))
  {
    if rounds != [] {
      var front, last := rounds[..|rounds| - 1], rounds[|rounds| - 1];
      TableAgreesIff(us, s, front, i);
      RunAgrees(us, s, front);
      RunAgrees(us, s, rounds);
      RoundTable(us, AfterAll(us, s, front), last, i);
    }
  }

  /** From the start of the daemon, an attached uplink's own table has its route exactly when its interface did not
      go away unseen since it was found. */
  lemma RunsTableIff(us: seq<Uplink>, k: Kernel, rounds: seq<Round>, i: nat)
    requires DistinctUplinks(us) && AtMostOneRule(us, k) && k.hooks <= 1 && AreRounds(us, rounds) && i < |us|
    ensures var t := AfterAll(us, Start(us, k), rounds);
      t.ifaces[i].Some? ==>
        (TableOk(us, t.kernel, i, t.ifaces[i].value) <==> Uninterrupted(us, Start(us, k), rounds, i))
  {
    StartAgrees(us, k);
    TableAgreesIff(us, Start(us, k), rounds, i);
  }

  /** The daemon has the uplink's interface, and the route in its own table is gone. */
  predicate Lost(us: seq<Uplink>, s: System, b: nat)
    requires Shape(us, s)
  {
    b < |us| && s.ifaces[b].Some? && TableOf(b) !in s.kernel.tables
  }

  /** An attached uplink whose link and path work fails its check exactly when its table is lost, now or before, and
      nothing carries the default route it would then be probed by. */
  lemma WorkingFailsIff(us: seq<Uplink>, s: System, r: Round, i: nat)
    requires Agreed(us, s) && |r.probes| == |us| && i < |us| && r.probes[i] == Probe(true, true)
    requires AddrOf(After(s, r.events).kernel, us[i].selfIp).Some?
    requires s.ifaces[i].None? || s.ifaces[i] == AddrOf(After(s, r.events).kernel, us[i].selfIp)
    ensures !Passes(us, After(s, r.events), r.probes, i) <==>
      && (Lost(us, s, i) || (s.ifaces[i].Some? && s.ifaces[i].value in Flushed(s.kernel, r.events)))
      && After(s, r.events).kernel.main.None?
  {
    EventsKeepConsistent(us, s, r.events);
    PassesIff(us, After(s, r.events), r.probes, i);
    TableSurvives(s.kernel, r.events, TableOf(i));
  }

  /** The ping of the uplink keeps answering where it is. */
  predicate Pinged(us: seq<Uplink>, r: Round, b: nat)
    requires b < |us|
  {
    b < |r.probes| && r.probes[b].link && Detach(us[b].selfIp) !in r.events
  }

  lemma {:induction false} AddressStays(k: Kernel, es: seq<NetEvent>, ip: string)
    requires ip in k.addrs && Detach(ip) !in es
    ensures AddrOf(AllHappen(k, es), ip) == AddrOf(k, ip)
    decreases es
  {
    if es != [] {
      AddressStays(Happens(k, es[0]), es[1..], ip);
    }
  }

  lemma PingedKeepsLost(us: seq<Uplink>, s: System, r: Round, b: nat)
    requires Agreed(us, s) && Lost(us, s, b) && |r.probes| == |us| && Pinged(us, r, b)
    ensures Lost(us, AfterRound(us, s, r), b)
    ensures s.changed && s.active.None? ==> !Passes(us, After(s, r.events), r.probes, b)
  {
    var s' := After(s, r.events);
    assert Current(us, s, b, s.ifaces[b].value);
    AddressStays(s.kernel, r.events, us[b].selfIp);
    EventsKeepConsistent(us, s, r.events);
    TableSurvives(s.kernel, r.events, TableOf(b));
    Survives(s.kernel, r.events, "");
    PassesIff(us, s', r.probes, b);
    PingedStays(us, s', r.probes, b);
    RoundTable(us, s, r, b);
  }

  lemma PingedStays(us: seq<Uplink>, s: System, ps: seq<Probe>, b: nat)
    requires Shape(us, s) && |ps| == |us| && b < |us| && ps[b].link && s.ifaces[b].Some?
    requires AddrOf(s.kernel, us[b].selfIp) == s.ifaces[b]
    ensures Pass(us, s, ps).ifaces[b] == s.ifaces[b]
  {
    var sweep := SweepTo(us, s, ps, |us|);
    SweepKeeps(us, s, ps, |us|, b);
    SweepFrame(us, s, ps, b);
    ActivatedFrame(us, sweep.sys, BestName(us, sweep.ok));
  }

  /** In some round some uplink but `b` passes. */
  ghost predicate OtherPasses(us: seq<Uplink>, s: System, rounds: seq<Round>, b: nat)
    requires Shape(us, s) && AreRounds(us, rounds)
  {
    rounds != [] &&
    var front, last := rounds[..|rounds| - 1], rounds[|rounds| - 1];
    || OtherPasses(us, s, front, b)
    || OtherIn(us, AfterAll(us, s, front), last, b)
  }

  ghost predicate OtherIn(us: seq<Uplink>, t: System, r: Round, b: nat)
    requires Shape(us, t) && |r.probes| == |us|
  {
    exists i | 0 <= i < |us| && i != b :: Passes(us, After(t, r.events), r.probes, i)
  }

  /** In every state on the way nothing is active. */
  ghost predicate NeverActive(us: seq<Uplink>, s: System, rounds: seq<Round>)
    requires Shape(us, s) && AreRounds(us, rounds)
  {
    AfterAll(us, s, rounds).active.None? && (rounds != [] ==> NeverActive(us, s, rounds[..|rounds| - 1]))
  }

  /** With nothing active, an uplink whose table is lost stays out for as long as its ping keeps answering, however
      well its path works; nothing becomes active exactly while no other uplink passes. */
  lemma {:induction false} StrandedUntil(us: seq<Uplink>, s: System, rounds: seq<Round>, b: nat)
    requires Agreed(us, s) && s.changed && s.active.None? && Lost(us, s, b)
    requires AreRounds(us, rounds) && forall n | 0 <= n < |rounds| :: Pinged(us, rounds[n], b)
    ensures Lost(us, AfterAll(us, s, rounds), b)
    ensures NeverActive(us, s, rounds) <==> !OtherPasses(us, s, rounds, b)
  {
    if rounds != [] {
      var m := |rounds| - 1;
      var front, last := rounds[..m], rounds[m];
      StrandedUntil(us, s, front, b);
      RunAgrees(us, s, front);
      PingedKeepsLost(us, AfterAll(us, s, front), last, b);
      StaysChanged(us, s, front);
      if NeverActive(us, s, front) {
        NextActive(us, AfterAll(us, s, front), last, b);
      }
    }
  }

  lemma NextActive(us: seq<Uplink>, t: System, r: Round, b: nat)
    requires Shape(us, t) && |r.probes| == |us| && b < |us|
    requires !Passes(us, After(t, r.events), r.probes, b)
    ensures AfterRound(us, t, r).active.None? <==> !OtherIn(us, t, r, b)
  {
    ActiveIsBest(us, After(t, r.events), r.probes);
  }

  lemma {:induction false} StaysChanged(us: seq<Uplink>, s: System, rounds: seq<Round>)
    requires Shape(us, s) && AreRounds(us, rounds) && s.changed
    ensures AfterAll(us, s, rounds).changed
  {
    if rounds != [] {
      StaysChanged(us, s, rounds[..|rounds| - 1]);
    }
  }

  /** How it comes to that: the active uplink, the only one that works, is unplugged and replugged between two passes
      and gets its old interface name back. With its link and its path alive it fails, and nothing is active. */
  lemma UnseenReplugStrands(us: seq<Uplink>, s: System, b: nat, ps: seq<Probe>)
    requires Agreed(us, s) && IsActive(us, s, b) && |ps| == |us| && ps[b] == Probe(true, true)
    requires forall i | 0 <= i < |us| && i != b :: !ps[i].link
    requires forall ip | ip in s.kernel.addrs && ip != us[b].selfIp :: Some(s.kernel.addrs[ip]) != s.ifaces[b]
    ensures s.ifaces[b].Some?
    ensures var t := AfterRound(us, s, Round([Detach(us[b].selfIp), Attach(us[b].selfIp, s.ifaces[b].value)], ps));
      && AddrOf(t.kernel, us[b].selfIp) == s.ifaces[b] && Agreed(us, t) && Lost(us, t, b)
      && t.changed && t.active.None? && t.kernel.main.None?
  {
    var dev, ip := s.ifaces[b].value, us[b].selfIp;
    var r := Round([Detach(ip), Attach(ip, dev)], ps);
    assert Current(us, s, b, dev);
    var k1 := Happens(s.kernel, Detach(ip));
    assert r.events[1..] == [Attach(ip, dev)] && [Attach(ip, dev)][1..] == [];
    assert dev in Flushed(s.kernel, r.events);
    assert !HasDevice(k1, dev);
    assert AllHappen(s.kernel, r.events) == AllHappen(Happens(k1, Attach(ip, dev)), []);
    Survives(s.kernel, r.events, dev);
    var s' := After(s, r.events);
    assert Carries(us, s.kernel, b, dev);
    EventsKeepConsistent(us, s, r.events);
    WorkingFailsIff(us, s, r, b);
    forall i | 0 <= i < |us| && i != b ensures !Passes(us, s', ps, i) {
      PassesIff(us, s', ps, i);
    }
    NextActive(us, s, r, b);
    PingedStays(us, s', ps, b);
    RoundTable(us, s, r, b);
    PassAgrees(us, s', ps);
  }

  // ----- what is published -----

  /** Where a pass leaves an uplink: at the interface that holds its address while its ping answers there. */
  predicate AttachedAt(us: seq<Uplink>, s: System, ps: seq<Probe>, i: nat)
    requires Shape(us, s) && i < |us| == |ps|
  {
    var now := AddrOf(s.kernel, us[i].selfIp);
    ps[i].link && now.Some? && (s.ifaces[i].None? || s.ifaces[i] == now)
  }

  /** After its turn an uplink's status and interface say what the check found, and the rest of the sweep leaves
      them. */
  lemma {:induction false} SweepStatus(us: seq<Uplink>, s: System, ps: seq<Probe>, n: nat, i: nat)
    requires Shape(us, s) && i < n <= |us| == |ps|
    ensures var r := SweepTo(us, s, ps, n).sys;
      && (r.status[i].healthy <==> Passes(us, s, ps, i)) && (r.status[i].attached <==> r.ifaces[i].Some?)
      && r.ifaces[i] == (if AttachedAt(us, s, ps, i) then AddrOf(s.kernel, us[i].selfIp) else None)
  {
    SweepFrame(us, s, ps, n - 1);
    if i < n - 1 {
      SweepStatus(us, s, ps, n - 1, i);
    }
  }

  /** The published status of every uplink after a pass: healthy exactly when it passed, attached exactly when it has
      an interface, which is the one that holds its address, as long as its ping answers there. */
  lemma PassStatus(us: seq<Uplink>, s: System, ps: seq<Probe>, i: nat)
    requires Shape(us, s) && i < |us| == |ps|
    ensures var t := Pass(us, s, ps);
      && (t.status[i].healthy <==> Passes(us, s, ps, i)) && (t.status[i].attached <==> t.ifaces[i].Some?)
      && t.ifaces[i] == (if AttachedAt(us, s, ps, i) then AddrOf(s.kernel, us[i].selfIp) else None)
  {
    SweepStatus(us, s, ps, |us|, i);
    var sweep := SweepTo(us, s, ps, |us|);
    ActivatedFrame(us, sweep.sys, BestName(us, sweep.ok));
    assert Activated(us, sweep.sys, BestName(us, sweep.ok)).status == sweep.sys.status;
  }

  /** From the start of the daemon, after the last of any rounds: an uplink is published healthy exactly when it is
      alive in that round, attached exactly when its ping answers at the interface that holds its address, and the
      active uplink is the first healthy one. */
  lemma RunsPublish(us: seq<Uplink>, k: Kernel, rounds: seq<Round>, r: Round, i: nat)
    requires DistinctUplinks(us) && AtMostOneRule(us, k) && k.hooks <= 1
    requires AreRounds(us, rounds) && |r.probes| == |us| && i < |us|
    ensures var before := After(AfterAll(us, Start(us, k), rounds), r.events);
      var t := AfterRound(us, AfterAll(us, Start(us, k), rounds), r);
      && (t.status[i].healthy <==> Alive(us, before, r.probes, i))
      && (t.status[i].attached <==> AttachedAt(us, before, r.probes, i))
      && (t.status[i].attached <==> t.ifaces[i].Some?)
      && (IsActive(us, t, i) <==> t.status[i].healthy && forall j | 0 <= j < i :: !t.status[j].healthy)
      && (t.active.None? <==> forall j | 0 <= j < |us| :: !t.status[j].healthy)
  {
    var s := AfterAll(us, Start(us, k), rounds);
    var before := After(s, r.events);
    StartAgrees(us, k);
    RunAgrees(us, Start(us, k), rounds);
    EventsKeepConsistent(us, s, r.events);
    PassesIff(us, before, r.probes, i);
    var t := AfterRound(us, s, r);
    forall j | 0 <= j < |us| ensures t.status[j].healthy <==> Passes(us, before, r.probes, j) {
      PassStatus(us, before, r.probes, j);
    }
    PassStatus(us, before, r.probes, i);
    ActiveIsFirst(us, before, r.probes, i);
    ActiveIsBest(us, before, r.probes);
  }

  lemma ActiveIsFirst(us: seq<Uplink>, s: System, ps: seq<Probe>, i: nat)
    requires Shape(us, s) && |ps| == |us| && i < |us| && DistinctUplinks(us)
    ensures IsActive(us, Pass(us, s, ps), i) <==> BestPassing(us, s, ps, i)
  {
    ActiveIsBest(us, s, ps);
    if Pass(us, s, ps).active.Some? {
      var b: nat :| BestPassing(us, s, ps, b) && us[b].name == Pass(us, s, ps).active.value;
    }
  }

  // ----- before anything works -----

  function EventsOf(rounds: seq<Round>): seq<NetEvent> {
    if rounds == [] then [] else EventsOf(rounds[..|rounds| - 1]) + rounds[|rounds| - 1].events
  }

  lemma {:induction false} HappenCat(k: Kernel, es: seq<NetEvent>, fs: seq<NetEvent>)
    ensures AllHappen(k, es + fs) == AllHappen(AllHappen(k, es), fs)
    decreases es
  {
    if es == [] {
      assert es + fs == fs;
    } else {
      assert (es + fs)[0] == es[0] && (es + fs)[1..] == es[1..] + fs;
      HappenCat(Happens(k, es[0]), es[1..], fs);
    }
  }

  /** What events do to the default route depends on the addresses and on it alone. */
  lemma {:induction false} HappenAlike(k: Kernel, l: Kernel, es: seq<NetEvent>)
    requires k.addrs == l.addrs && k.main == l.main
    ensures AllHappen(k, es).addrs == AllHappen(l, es).addrs && AllHappen(k, es).main == AllHappen(l, es).main
    decreases es
  {
    if es != [] {
      HappenAlike(Happens(k, es[0]), Happens(l, es[0]), es[1..]);
    }
  }

  /** In some round some uplink passes. */
  ghost predicate EverPasses(us: seq<Uplink>, s: System, rounds: seq<Round>)
    requires Shape(us, s) && AreRounds(us, rounds)
  {
    rounds != [] &&
    var front, last := rounds[..|rounds| - 1], rounds[|rounds| - 1];
    EverPasses(us, s, front) || PassesIn(us, AfterAll(us, s, front), last)
  }

  ghost predicate PassesIn(us: seq<Uplink>, t: System, r: Round)
    requires Shape(us, t) && |r.probes| == |us|
  {
    exists i | 0 <= i < |us| :: Passes(us, After(t, r.events), r.probes, i)
  }

  lemma RoundChanges(us: seq<Uplink>, t: System, r: Round)
    requires Shape(us, t) && |r.probes| == |us|
    ensures var u := AfterRound(us, t, r);
      && (t.changed ==> u.changed)
      && (t.active.None? && !t.changed ==>
        && (u.changed <==> PassesIn(us, t, r))
        && (!u.changed ==> u.active.None? && u.kernel.addrs == AllHappen(t.kernel, r.events).addrs
                           && u.kernel.main == AllHappen(t.kernel, r.events).main))
  {
    ActiveIsBest(us, After(t, r.events), r.probes);
    SweepFrame(us, After(t, r.events), r.probes, |us|);
  }

  /** From the start of the daemon, over any rounds: the default route is first touched in the first round in which
      some uplink passes; until then it is what the coming and going of interfaces alone makes of it. */
  lemma {:induction false} StaleRouteStays(us: seq<Uplink>, k: Kernel, rounds: seq<Round>)
    requires AreRounds(us, rounds)
    ensures var t := AfterAll(us, Start(us, k), rounds);
      && (t.changed <==> EverPasses(us, Start(us, k), rounds))
      && (!t.changed ==>
        && t.active.None? && t.kernel.addrs == AllHappen(k, EventsOf(rounds)).addrs
        && t.kernel.main == AllHappen(k, EventsOf(rounds)).main)
  {
    if rounds != [] {
      var s, m := Start(us, k), |rounds| - 1;
      var front, last := rounds[..m], rounds[m];
      StaleRouteStays(us, k, front);
      var t := AfterAll(us, s, front);
      RoundChanges(us, t, last);
      HappenCat(k, EventsOf(front), last.events);
      if !t.changed {
        HappenAlike(t.kernel, AllHappen(k, EventsOf(front)), last.events);
      }
    }
  }

  // ----- guaranteed rates -----

  /** What a shaped interface guarantees, class by class: a fifth of the link for emergencies, three tenths for
      federation, half for the rest, each at least 1 kbit, never more than the link, and served in that order. */
  lemma ShapedMeans(k: Kernel, dev: string, bandwidthKbit: nat)
    requires IsShaped(k, dev, bandwidthKbit)
    ensures forall id | id in {"1:10", "1:20", "1:30"} :: id in k.qdiscs[dev]
    ensures k.qdiscs[dev]["1:10"] == HtbClass(AtLeastOne(bandwidthKbit / 5), bandwidthKbit, 0)
    ensures k.qdiscs[dev]["1:20"] == HtbClass(AtLeastOne(3 * bandwidthKbit / 10), bandwidthKbit, 1)
    ensures k.qdiscs[dev]["1:30"] == HtbClass(AtLeastOne(bandwidthKbit / 2), bandwidthKbit, 2)
  {
    assert QOS_CLASSES[0] in QOS_CLASSES && QOS_CLASSES[1] in QOS_CLASSES && QOS_CLASSES[2] in QOS_CLASSES;
  }

  function AtLeastOne(n: nat): nat { if n == 0 then 1 else n }

  /** The guaranteed rates fit the link exactly from 3 kbit up, and then leave at most 2 kbit unassigned; below
      that the floor of 1 kbit a class promises more than there is. */
  lemma RatesFitIff(bandwidthKbit: nat)
    ensures var sum := RateOf(bandwidthKbit, 20) + RateOf(bandwidthKbit, 30) + RateOf(bandwidthKbit, 50);
      && (sum <= bandwidthKbit <==> bandwidthKbit >= 3)
      && (bandwidthKbit >= 3 ==> bandwidthKbit - sum <= 2)
  {
  }
}
