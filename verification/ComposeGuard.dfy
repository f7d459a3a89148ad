/** When the unplug guard passes, stated on the compose trees alone. */
module ComposeGuard {
  import opened Results
  import opened Compose
  import opened ComposeLaws

  // ----- what one occurrence establishes -----

  predicate IsAddressKey(o: Occurrence) { o.key == "ipv4_address" && o.val.Some? && o.val.value != "" }

  predicate IsInternalKey(o: Occurrence) { o.key == "internal" && o.val == Some("true") }

  /** `networks.<net>... .internal: true`. */
  predicate MakesInternal(o: Occurrence, net: string) {
    IsInternalKey(o) && |o.path| >= 2 && o.path[0] == "networks" && o.path[1] == net
  }

  /** `services.<svc>... .networks.<net>.ipv4_address: x`. */
  predicate FixesAddress(o: Occurrence, svc: string, net: string) {
    var n := |o.path|;
    IsAddressKey(o) && n >= 4 && o.path[0] == "services" && o.path[1] == svc
    && o.path[n - 2] == "networks" && o.path[n - 1] == net
  }

  /** `services.<svc>... .networks` names `<net>`, as a key or as a list item. */
  predicate Joins(o: Occurrence, svc: string, net: string) {
    var n := |o.path|;
    !IsAddressKey(o) && !IsInternalKey(o) && o.key == net
    && n >= 3 && o.path[0] == "services" && o.path[1] == svc && o.path[n - 1] == "networks"
  }

  /** The address the file finally gives the service on the network. */
  function FixedAddress(os: seq<Occurrence>, svc: string, net: string): Option<string>
    decreases |os|
  {
    if os == [] then None
    else
      var o := os[|os| - 1];
      if FixesAddress(o, svc, net) then Some(DefaultOf(o.val.value)) else FixedAddress(os[..|os| - 1], svc, net)
  }

  lemma NoteMeans(file: string, f: Facts, o: Occurrence)
    ensures var g := Note(file, f, o.path, o.key, o.val);
      && (forall net :: net in g.internal <==> net in f.internal || MakesInternal(o, net))
      && (forall m :: m in g.memberships <==> m in f.memberships || (m.file == file && Joins(o, m.service, m.network)))
      && (forall m :: m in g.ips <==> m in f.ips || (m.file == file && FixesAddress(o, m.service, m.network)))
      && (forall m | m in g.ips && m.file == file && FixesAddress(o, m.service, m.network) ::
            g.ips[m] == DefaultOf(o.val.value))
      && (forall m | m in g.ips && !(m.file == file && FixesAddress(o, m.service, m.network)) :: g.ips[m] == f.ips[m])
  {
  }

  lemma NoteAllLast(file: string, os: seq<Occurrence>)
    requires os != []
    ensures var o := os[|os| - 1];
      NoteAll(file, NO_FACTS, os) == Note(file, NoteAll(file, NO_FACTS, os[..|os| - 1]), o.path, o.key, o.val)
  {
    var n := |os| - 1;
    assert os == os[..n] + [os[n]];
    NoteAllCat(file, NO_FACTS, os[..n], [os[n]]);
    NoteOne(file, NoteAll(file, NO_FACTS, os[..n]), os[n]);
  }

  predicate AnyInternal(os: seq<Occurrence>, net: string) { exists o | o in os :: MakesInternal(o, net) }

  predicate AnyJoins(os: seq<Occurrence>, svc: string, net: string) { exists o | o in os :: Joins(o, svc, net) }

  /** The collected facts, read off the occurrences. */
  lemma {:induction false} NoteAllMeans(file: string, os: seq<Occurrence>)
    ensures var f := NoteAll(file, NO_FACTS, os);
      && (forall net :: net in f.internal <==> AnyInternal(os, net))
      && (forall m :: m in f.memberships <==> m.file == file && AnyJoins(os, m.service, m.network))
      && (forall m :: m in f.ips <==> m.file == file && FixedAddress(os, m.service, m.network).Some?)
      && (forall m | m in f.ips :: FixedAddress(os, m.service, m.network) == Some(f.ips[m]))
    decreases |os|
  {
    if os != [] {
      var n := |os| - 1;
      NoteAllLast(file, os);
      NoteAllMeans(file, os[..n]);
      NoteMeans(file, NoteAll(file, NO_FACTS, os[..n]), os[n]);
      assert os == os[..n] + [os[n]];
      forall net ensures AnyInternal(os, net) <==> AnyInternal(os[..n], net) || MakesInternal(os[n], net) {}
      forall svc, net ensures AnyJoins(os, svc, net) <==> AnyJoins(os[..n], svc, net) || Joins(os[n], svc, net) {}
    }
  }

  // ----- an address sits under its own membership -----

  /** The key that opened the innermost mapping around `o`. */
  predicate IsParent(p: Occurrence, o: Occurrence) {
    o.path == p.path + [p.key] && p.val == Some("")
  }

  predicate HasParent(os: seq<Occurrence>, o: Occurrence) { exists p | p in os :: IsParent(p, o) }

  lemma {:induction false} ParentInBlock(read: bool, path: seq<string>, entries: seq<Entry>, o: Occurrence)
    requires o in Occurrences(read, path, entries)
    ensures o.path == path || HasParent(Occurrences(read, path, entries), o)
    decreases entries, 1
  {
    var here, rest := EntryOccurrences(read, path, entries[0]), Occurrences(read, path, entries[1..]);
    if o in here {
      ParentInEntry(read, path, entries[0], o);
      if o.path != path {
        var p :| p in here && IsParent(p, o);
        assert p in here + rest;
      }
    } else {
      ParentInBlock(read, path, entries[1..], o);
      if o.path != path {
        var p :| p in rest && IsParent(p, o);
        assert p in here + rest;
      }
    }
  }

  lemma {:induction false} ParentInEntry(read: bool, path: seq<string>, e: Entry, o: Occurrence)
    requires o in EntryOccurrences(read, path, e)
    ensures o.path == path || HasParent(EntryOccurrences(read, path, e), o)
    decreases e, 0
  {
    var top := Occurrence(path, e.key, Some(""));
    match e.node {
      case Nested(_, entries) =>
        if o != top {
          ParentInBlock(read, path + [e.key], entries, o);
          var inner := Occurrences(read, path + [e.key], entries);
          if o.path != path + [e.key] {
            var p :| p in inner && IsParent(p, o);
            assert p in [top] + inner;
          } else {
            assert top in [top] + inner && IsParent(top, o);
          }
        }
      case Items(_, items) =>
        if o != top {
          ParentInItems(read, path + [e.key], items, o);
          var inner := ItemsOccurrences(read, path + [e.key], items);
          if o.path != path + [e.key] {
            var p :| p in inner && IsParent(p, o);
            assert p in [top] + inner;
          } else {
            assert top in [top] + inner && IsParent(top, o);
          }
        }
      case _ =>
    }
  }

  lemma {:induction false} ParentInItems(read: bool, path: seq<string>, items: seq<Item>, o: Occurrence)
    requires o in ItemsOccurrences(read, path, items)
    ensures o.path == path || HasParent(ItemsOccurrences(read, path, items), o)
    decreases items, 1
  {
    var here, rest := ItemOccurrences(read, path, items[0]), ItemsOccurrences(read, path, items[1..]);
    if o in here {
      if items[0].Dashed? {
        ParentInBlock(read, path, items[0].entries, o);
        if o.path != path {
          var p :| p in here && IsParent(p, o);
          assert p in here + rest;
        }
      }
    } else {
      ParentInItems(read, path, items[1..], o);
      if o.path != path {
        var p :| p in rest && IsParent(p, o);
        assert p in here + rest;
      }
    }
  }

  lemma {:induction false} FixedAddressFrom(os: seq<Occurrence>, svc: string, net: string)
    ensures FixedAddress(os, svc, net).Some? ==> exists o | o in os :: FixesAddress(o, svc, net)
    decreases |os|
  {
    if os != [] {
      FixedAddressFrom(os[..|os| - 1], svc, net);
      assert os[|os| - 1] in os && forall o | o in os[..|os| - 1] :: o in os;
    }
  }

  /** A service with a fixed address on a network is a member of that network. */
  predicate AddressesJoin(os: seq<Occurrence>) {
    forall o | o in os && IsAddressKey(o) :: MemberThere(os, o)
  }

  predicate MemberThere(os: seq<Occurrence>, o: Occurrence) {
    var n := |o.path|;
    n >= 4 && o.path[0] == "services" && o.path[n - 2] == "networks" ==> AnyJoins(os, o.path[1], o.path[n - 1])
  }

  lemma AddressImpliesJoin(read: bool, entries: seq<Entry>)
    ensures AddressesJoin(Occurrences(read, [], entries))
  {
    var os := Occurrences(read, [], entries);
    forall o | o in os && IsAddressKey(o) ensures MemberThere(os, o) {
      var n := |o.path|;
      if n >= 4 && o.path[0] == "services" && o.path[n - 2] == "networks" {
        ParentInBlock(read, [], entries, o);
        var p :| p in os && IsParent(p, o);
        assert p.path == o.path[..n - 1] && p.key == o.path[n - 1];
        assert Joins(p, o.path[1], o.path[n - 1]);
      }
    }
  }

  // ----- the verdict on what was read -----

  /** One file's name and the occurrences in it. */
  datatype Reading = Reading(name: string, os: seq<Occurrence>)

  /** The facts of all files, collected file by file. */
  function Collected(rs: seq<Reading>): Facts {
    if rs == [] then NO_FACTS
    else Joined(Collected(rs[..|rs| - 1]), NoteAll(rs[|rs| - 1].name, NO_FACTS, rs[|rs| - 1].os))
  }

  predicate DistinctNames(rs: seq<Reading>) { forall i, j | 0 <= i < j < |rs| :: rs[i].name != rs[j].name }

  predicate InternalSomewhere(rs: seq<Reading>, net: string) { exists r | r in rs :: AnyInternal(r.os, net) }

  /** In this file, the service's address on the network is fixed and declared. */
  predicate Covered(r: Reading, svc: string, net: string, declared: set<string>) {
    var a := FixedAddress(r.os, svc, net);
    a.Some? && a.value in declared
  }

  /** What the last file adds to the facts of the ones before it. */
  lemma LastFacts(rs: seq<Reading>, m: Member)
    requires rs != []
    ensures
      var (before, after, r) := (Collected(rs[..|rs| - 1]), Collected(rs), rs[|rs| - 1]);
      var own := m.file == r.name;
      && (m.network in after.internal <==> m.network in before.internal || AnyInternal(r.os, m.network))
      && (m in after.memberships <==> m in before.memberships || (own && AnyJoins(r.os, m.service, m.network)))
      && (m in after.ips <==> m in before.ips || (own && FixedAddress(r.os, m.service, m.network).Some?))
      && (m in after.ips ==> if own && FixedAddress(r.os, m.service, m.network).Some?
           then Some(after.ips[m]) == FixedAddress(r.os, m.service, m.network) else after.ips[m] == before.ips[m])
  {
    NoteAllMeans(rs[|rs| - 1].name, rs[|rs| - 1].os);
  }

  lemma {:induction false} InternalMeans(rs: seq<Reading>, net: string)
    ensures net in Collected(rs).internal <==> InternalSomewhere(rs, net)
    decreases |rs|
  {
    if rs != [] {
      var n := |rs| - 1;
      LastFacts(rs, Member("", "", net));
      InternalMeans(rs[..n], net);
      assert rs == rs[..n] + [rs[n]];
    }
  }

  /** Every fact is about one of the files. */
  lemma {:induction false} FactsHaveFiles(rs: seq<Reading>, m: Member)
    requires m in Collected(rs).memberships || m in Collected(rs).ips
    ensures exists i :: 0 <= i < |rs| && rs[i].name == m.file
    decreases |rs|
  {
    var n := |rs| - 1;
    LastFacts(rs, m);
    if rs[n].name != m.file {
      FactsHaveFiles(rs[..n], m);
      var i :| 0 <= i < n && rs[..n][i].name == m.file;
      assert rs[i].name == m.file;
    }
  }

  lemma NotBefore(rs: seq<Reading>, m: Member)
    requires rs != [] && DistinctNames(rs) && m.file == rs[|rs| - 1].name
    ensures m !in Collected(rs[..|rs| - 1]).memberships && m !in Collected(rs[..|rs| - 1]).ips
  {
    var front := rs[..|rs| - 1];
    if m in Collected(front).memberships || m in Collected(front).ips {
      FactsHaveFiles(front, m);
    }
  }

  /** What the facts say of one member is what these occurrences say. */
  predicate SaysOf(f: Facts, m: Member, os: seq<Occurrence>) {
    && (m in f.memberships <==> AnyJoins(os, m.service, m.network))
    && FixedAddress(os, m.service, m.network) == if m in f.ips then Some(f.ips[m]) else None
  }

  lemma LastSays(rs: seq<Reading>, m: Member)
    requires rs != []
    ensures m.file != rs[|rs| - 1].name ==>
      forall os :: SaysOf(Collected(rs), m, os) <==> SaysOf(Collected(rs[..|rs| - 1]), m, os)
    ensures DistinctNames(rs) && m.file == rs[|rs| - 1].name ==> SaysOf(Collected(rs), m, rs[|rs| - 1].os)
  {
    LastFacts(rs, m);
    if DistinctNames(rs) && m.file == rs[|rs| - 1].name { NotBefore(rs, m); }
  }

  /** The accumulated facts about one file are that file's own. */
  lemma {:induction false} FactsOfOne(rs: seq<Reading>, i: nat, svc: string, net: string)
    requires DistinctNames(rs) && i < |rs|
    ensures SaysOf(Collected(rs), Member(rs[i].name, svc, net), rs[i].os)
    decreases |rs|
  {
    LastSays(rs, Member(rs[i].name, svc, net));
    if i < |rs| - 1 {
      FactsOfOne(rs[..|rs| - 1], i, svc, net);
    }
  }

  /** Every service that joins a network which no file makes internal has a fixed address on it, and that address is
      on the declared list. */
  predicate AllCovered(rs: seq<Reading>, declared: set<string>) {
    forall r | r in rs :: OutsideCovered(rs, r, declared)
  }

  predicate OutsideCovered(rs: seq<Reading>, r: Reading, declared: set<string>) {
    forall o | o in r.os && |o.path| >= 3 && Joins(o, o.path[1], o.key) && !InternalSomewhere(rs, o.key) ::
      Covered(r, o.path[1], o.key, declared)
  }

  lemma CoveredIf(rs: seq<Reading>, i: nat, o: Occurrence, declared: set<string>)
    requires DistinctNames(rs) && i < |rs| && Problems(Collected(rs), declared) == {}
    requires o in rs[i].os && |o.path| >= 3 && Joins(o, o.path[1], o.key) && !InternalSomewhere(rs, o.key)
    ensures Covered(rs[i], o.path[1], o.key, declared)
  {
    var f, m := Collected(rs), Member(rs[i].name, o.path[1], o.key);
    FactsOfOne(rs, i, o.path[1], o.key);
    InternalMeans(rs, o.key);
    assert Dynamic(m) !in Problems(f, declared);
    assert Missing(f.ips[m], m) !in Problems(f, declared);
  }

  lemma {:induction false} AddressSource(os: seq<Occurrence>, svc: string, net: string)
    requires AddressesJoin(os) && FixedAddress(os, svc, net).Some?
    ensures AnyJoins(os, svc, net)
  {
    FixedAddressFrom(os, svc, net);
    var o :| o in os && FixesAddress(o, svc, net);
    assert MemberThere(os, o);
  }

  lemma ProblemUncovered(rs: seq<Reading>, p: Problem, declared: set<string>)
    requires DistinctNames(rs) && (forall r | r in rs :: AddressesJoin(r.os)) && p in Problems(Collected(rs), declared)
    ensures !AllCovered(rs, declared)
  {
    var m := p.at;
    FactsHaveFiles(rs, m);
    var i :| 0 <= i < |rs| && rs[i].name == m.file;
    FactsOfOne(rs, i, m.service, m.network);
    InternalMeans(rs, m.network);
    assert rs[i] in rs;
    if p.Missing? { AddressSource(rs[i].os, m.service, m.network); }
    var o :| o in rs[i].os && Joins(o, m.service, m.network);
    assert !Covered(rs[i], o.path[1], o.key, declared);
  }

  /** The guard's verdict on what was read of the files. */
  lemma VerdictIff(rs: seq<Reading>, declared: set<string>)
    requires DistinctNames(rs) && forall r | r in rs :: AddressesJoin(r.os)
    ensures Problems(Collected(rs), declared) == {} <==> AllCovered(rs, declared)
  {
    if Problems(Collected(rs), declared) == {} {
      forall r, o | r in rs && o in r.os && |o.path| >= 3 && Joins(o, o.path[1], o.key) && !InternalSomewhere(rs, o.key)
        ensures Covered(r, o.path[1], o.key, declared)
      {
        var i :| 0 <= i < |rs| && rs[i] == r;
        CoveredIf(rs, i, o, declared);
      }
    } else {
      var p :| p in Problems(Collected(rs), declared);
      ProblemUncovered(rs, p, declared);
    }
  }

  lemma ProblemsMean(rs: seq<Reading>, declared: set<string>, i: nat, svc: string, net: string, a: string)
    requires DistinctNames(rs) && i < |rs|
    ensures var problems, m := Problems(Collected(rs), declared), Member(rs[i].name, svc, net);
      && (Missing(a, m) in problems <==>
            FixedAddress(rs[i].os, svc, net) == Some(a) && a !in declared && !InternalSomewhere(rs, net))
      && (Dynamic(m) in problems <==>
            AnyJoins(rs[i].os, svc, net) && FixedAddress(rs[i].os, svc, net).None? && !InternalSomewhere(rs, net))
  {
    FactsOfOne(rs, i, svc, net);
    InternalMeans(rs, net);
  }

  // ----- the verdict over a project -----

  /** One compose file: its name, its tree, and the indent its top level happens to have. */
  datatype ComposeFile = ComposeFile(name: string, indent: nat, entries: seq<Entry>)

  function Printed(files: seq<ComposeFile>): (r: seq<Source>)
    ensures |r| == |files|
    ensures forall i | 0 <= i < |r| :: r[i] == Source(files[i].name, Print(files[i].indent, files[i].entries))
  {
    seq(|files|, i requires 0 <= i < |files| => Source(files[i].name, Print(files[i].indent, files[i].entries)))
  }

  /** The files' trees, as the parser takes them or as they are written. */
  function Readings(read: bool, files: seq<ComposeFile>): (r: seq<Reading>)
    ensures |r| == |files|
    ensures forall i | 0 <= i < |r| :: r[i] == Reading(files[i].name, Occurrences(read, [], files[i].entries))
  {
    seq(|files|, i requires 0 <= i < |files| => Reading(files[i].name, Occurrences(read, [], files[i].entries)))
  }

  predicate AllPrintable(files: seq<ComposeFile>) { forall f | f in files :: Printable(f.entries) }

  /** No list item of any file is misread. */
  predicate AllReadRight(files: seq<ComposeFile>) { forall f | f in files :: ReadRight([], f.entries) }

  lemma FileFacts(read: bool, f: ComposeFile)
    requires Printable(f.entries) && (read || ReadRight([], f.entries))
    ensures FactsOf(f.name, Print(f.indent, f.entries)) == NoteAll(f.name, NO_FACTS, Occurrences(read, [], f.entries))
  {
    ParserReadsTree(f.name, f.indent, f.entries);
    if !read { BlockReadRight(f.name, NO_FACTS, [], f.entries); }
  }

  lemma {:induction false} FactsAlike(sources: seq<Source>, rs: seq<Reading>)
    requires |sources| == |rs|
    requires forall i | 0 <= i < |rs| ::
      FactsOf(sources[i].file, sources[i].raws) == NoteAll(rs[i].name, NO_FACTS, rs[i].os)
    ensures AllFacts(sources) == Collected(rs)
    decreases |rs|
  {
    if rs != [] {
      FactsAlike(sources[..|rs| - 1], rs[..|rs| - 1]);
    }
  }

  lemma FactsCollected(read: bool, files: seq<ComposeFile>)
    requires AllPrintable(files) && (read || AllReadRight(files))
    ensures AllFacts(Printed(files)) == Collected(Readings(read, files))
  {
    var sources, rs := Printed(files), Readings(read, files);
    forall i | 0 <= i < |rs|
      ensures FactsOf(sources[i].file, sources[i].raws) == NoteAll(rs[i].name, NO_FACTS, rs[i].os)
    {
      assert files[i] in files;
      FileFacts(read, files[i]);
    }
    FactsAlike(sources, rs);
  }

  /** The guard passes, however the files are laid out, exactly when every service that joins a network which no file
      makes internal has a fixed address on it, and that address is on the declared list: of any files, as the parser
      takes their list items; of files without a misread item, as they are written. */
  lemma GuardPassesIff(read: bool, files: seq<ComposeFile>, declared: set<string>)
    requires AllPrintable(files) && (read || AllReadRight(files)) && DistinctNames(Readings(read, files))
    ensures Problems(AllFacts(Printed(files)), declared) == {} <==> AllCovered(Readings(read, files), declared)
  {
    FactsCollected(read, files);
    var rs := Readings(read, files);
    forall r | r in rs ensures AddressesJoin(r.os) {
      var i :| 0 <= i < |rs| && rs[i] == r;
      AddressImpliesJoin(read, files[i].entries);
    }
    VerdictIff(rs, declared);
  }

  /** Exactly what the guard reports over printed files: each fixed address on a network no file makes internal that
      is not declared, each membership of such a network without a fixed address, and nothing about other files. */
  lemma GuardReports(read: bool, files: seq<ComposeFile>, declared: set<string>, problems: set<Problem>, i: nat,
      svc: string, net: string, a: string)
    requires AllPrintable(files) && (read || AllReadRight(files)) && DistinctNames(Readings(read, files))
    requires problems == Problems(AllFacts(Printed(files)), declared) && i < |files|
    ensures var rs, os := Readings(read, files), Occurrences(read, [], files[i].entries);
      && (Missing(a, Member(files[i].name, svc, net)) in problems <==>
            FixedAddress(os, svc, net) == Some(a) && a !in declared && !InternalSomewhere(rs, net))
      && (Dynamic(Member(files[i].name, svc, net)) in problems <==>
            AnyJoins(os, svc, net) && FixedAddress(os, svc, net).None? && !InternalSomewhere(rs, net))
    ensures forall p | p in problems :: exists j :: 0 <= j < |files| && files[j].name == p.at.file
  {
    FactsCollected(read, files);
    var rs := Readings(read, files);
    ProblemsMean(rs, declared, i, svc, net, a);
    forall p | p in problems ensures exists j :: 0 <= j < |files| && files[j].name == p.at.file {
      FactsHaveFiles(rs, p.at);
      var j :| 0 <= j < |rs| && rs[j].name == p.at.file;
      assert files[j].name == p.at.file;
    }
  }

  // ----- lines that say nothing -----

  /** Blank and comment lines anywhere change nothing. */
  lemma {:induction false} NoiseIgnored(file: string, st: State, before: seq<string>, noise: string, after: seq<string>)
    requires Lex(noise) == Skip
    ensures Run(file, st, LexAll(before + [noise] + after)) == Run(file, st, LexAll(before + after))
  {
    LexCat(before + [noise], after);
    LexCat(before, [noise]);
    LexCat(before, after);
    LexOne(noise);
    RunCat(file, st, LexAll(before) + [Skip], LexAll(after));
    RunCat(file, st, LexAll(before), [Skip]);
    RunCat(file, st, LexAll(before), LexAll(after));
    RunOne(file, Run(file, st, LexAll(before)), Skip);
  }

  // ----- addresses with a default -----

  function Defaulted(name: string, address: string): string { ['$', '{'] + (name + ([':', '-'] + (address + ['}']))) }

  lemma InsideBraces(name: string, address: string)
    ensures var r := name + ([':', '-'] + (address + ['}']));
      && |r| == |name| + |address| + 3
      && r[|name|] == ':' && r[|name| + 1] == '-' && r[|r| - 1] == '}'
      && r[|name| + 2..|r| - 1] == address
  {
  }

  /** `${VAR:-address}` reads as its address, and a plain value as itself. */
  lemma DefaultReads(name: string, address: string)
    requires name != "" && ':' !in name && '}' !in name && address != "" && '}' !in address
    ensures DefaultOf(Defaulted(name, address)) == address
    ensures address[0] != '$' ==> DefaultOf(address) == address
  {
    var r := name + ([':', '-'] + (address + ['}']));
    assert Defaulted(name, address)[2..] == r;
    NameEndThen(name, [':', '-'] + (address + ['}']));
    InsideBraces(name, address);
  }

  lemma {:induction false} NameEndThen(name: string, rest: string)
    requires (forall i | 0 <= i < |name| :: name[i] != ':' && name[i] != '}') && rest != "" && rest[0] == ':'
    ensures NameEnd(name + rest) == |name|
  {
    if name == "" {
      assert name + rest == rest;
    } else {
      NameEndThen(name[1..], rest);
      assert (name + rest)[1..] == name[1..] + rest;
    }
  }
}
