/** Several test rigs sharing one store and one core: each adds its own subscriber, then syncs. */
module Rigs {
  import opened Canonical
  import opened Subscribers
  import opened Collections
  import opened Sync
  import opened SyncLaws
  import opened LiveSessions
  import opened Store
  import opened Islands

  /** A rig that has done nothing, one that has added its subscriber, one whose sync has listed the store, and one
      whose sync has run its script over that listing. */
  datatype Phase = Fresh | Added | HasListed(listed: seq<Subscriber>) | Synchronized

  datatype Lab = Lab(island: Island, phases: seq<Phase>)

  /** One step of one rig, with the identifiers its script would generate. */
  datatype Move = Move(rig: nat, ids: seq<Ids>)

  function Step(lab: Lab, subs: seq<Subscriber>, m: Move): Lab
    requires |subs| == |lab.phases|
  {
    if m.rig >= |subs| then lab else
    match lab.phases[m.rig]
    case Fresh =>
      Lab(Act(lab.island, StoreAction(AddIfMissing(subs[m.rig]))), lab.phases[m.rig := Added])
    case Added =>
      Lab(lab.island, lab.phases[m.rig := HasListed(ListAll(lab.island.rows))])
    case HasListed(listed) =>
      Lab(Act(lab.island, ScriptAction(listed, m.ids)), lab.phases[m.rig := Synchronized])
    case Synchronized => lab
  }

  function Run(lab: Lab, subs: seq<Subscriber>, moves: seq<Move>): (r: Lab)
    requires |subs| == |lab.phases|
    ensures |r.phases| == |subs|
    decreases moves
  {
    if moves == [] then lab else Run(Step(lab, subs, moves[0]), subs, moves[1..])
  }

  predicate AllDone(lab: Lab) { forall p | p in lab.phases :: p == Synchronized }

  /** No rig's subscriber contradicts another's or the store's, and every field reaches the core. */
  predicate Compatible(rows: seq<Subscriber>, subs: seq<Subscriber>) {
    && (forall s, t | s in subs && t in subs && s.imsi == t.imsi :: SameRow(s, t))
    && (forall s, t | s in subs && t in rows && s.imsi == t.imsi :: SameRow(s, t))
    && Runnable(rows) && Runnable(subs) && AllValid(subs)
  }

  /** The store holds what it held, plus the subscribers of the rigs that have added theirs. */
  ghost predicate Grown(rows: seq<Subscriber>, lab: Lab, subs: seq<Subscriber>)
    requires |subs| == |lab.phases|
  {
    && (forall s | s in rows :: s in lab.island.rows)
    && (forall r | 0 <= r < |subs| && lab.phases[r] != Fresh :: HasRow(lab.island.rows, subs[r].imsi))
    && (forall s | s in lab.island.rows :: s in rows || s in subs)
  }

  /** A rig that has synced finds its subscriber in the core, whatever the others have done since. */
  predicate NoneLost(lab: Lab, subs: seq<Subscriber>)
    requires |subs| == |lab.phases|
  {
    forall r | 0 <= r < |subs| && lab.phases[r] == Synchronized :: Find(lab.island.docs, subs[r].imsi).Some?
  }

  /** What some rig may have listed by now: the first rows, and rows that are still there. */
  ghost predicate IsListing(rows: seq<Subscriber>, now: seq<Subscriber>, listed: seq<Subscriber>) {
    && DistinctImsis(listed) && Runnable(listed)
    && (forall s | s in rows :: s in listed) && forall s | s in listed :: s in now
  }

  ghost predicate ListsItself(rows: seq<Subscriber>, lab: Lab, subs: seq<Subscriber>, r: nat)
    requires |subs| == |lab.phases| && r < |subs|
  {
    lab.phases[r].HasListed? ==>
      IsListing(rows, lab.island.rows, lab.phases[r].listed) && HasRow(lab.phases[r].listed, subs[r].imsi)
  }

  /** Once some rig has synced, the collection is what the last script made of it. */
  ghost predicate Reflects(rows: seq<Subscriber>, lab: Lab) {
    Synchronized in lab.phases ==>
      exists listed :: IsListing(rows, lab.island.rows, listed) && Mirrors(lab.island.docs, listed)
  }

  ghost predicate Invariant(start: Island, lab: Lab, subs: seq<Subscriber>) {
    && |subs| == |lab.phases| && Healthy(lab.island) && Grown(start.rows, lab, subs)
    && MarkedOnly(lab.island.docs) == MarkedOnly(start.docs)
    && (forall r | 0 <= r < |subs| :: ListsItself(start.rows, lab, subs, r))
    && Reflects(start.rows, lab)
  }

  lemma CompatibleAdds(rows: seq<Subscriber>, now: seq<Subscriber>, subs: seq<Subscriber>, s: Subscriber)
    requires Compatible(rows, subs) && s in subs && DistinctImsis(now)
    requires forall t | t in now :: t in rows || t in subs
    ensures Apply(now, AddIfMissing(s)).Ok? && HasRow(RowsAfter(now, AddIfMissing(s)), s.imsi)
    ensures forall t | t in now :: t in RowsAfter(now, AddIfMissing(s))
    ensures forall t | t in RowsAfter(now, AddIfMissing(s)) :: t in now || t == s
  {
    RowOfMember(now, s.imsi);
    if HasRow(now, s.imsi) {
      var t := RowOf(now, s.imsi).value;
      assert SameRow(s, t);
    } else {
      assert s in now + [s];
    }
  }

  lemma GrownRunnable(rows: seq<Subscriber>, now: seq<Subscriber>, subs: seq<Subscriber>)
    requires Compatible(rows, subs) && DistinctImsis(now) && forall t | t in now :: t in rows || t in subs
    ensures Runnable(ListAll(now)) && DistinctImsis(ListAll(now))
  {
    ListAllRows(now);
  }

  lemma MirroredFinds(docs: seq<Value>, subs: seq<Subscriber>, s: Subscriber)
    requires Mirrors(docs, subs) && s in subs
    ensures Find(docs, s.imsi).Some?
  {
    var i :| 0 <= i < |subs| && subs[i] == s;
    var entries := EntriesOf(subs, []);
    assert entries[i] in entries && Settled(docs, entries[i]);
  }

  lemma ListingStays(rows: seq<Subscriber>, now: seq<Subscriber>, later: seq<Subscriber>)
    requires forall s | s in now :: s in later
    ensures forall listed | IsListing(rows, now, listed) :: IsListing(rows, later, listed)
    ensures forall imsi | HasRow(now, imsi) :: HasRow(later, imsi)
  {
    forall imsi | HasRow(now, imsi) ensures HasRow(later, imsi) {
      var t :| t in now && t.imsi == imsi;
      assert t in later;
    }
  }

  lemma AddKeeps(start: Island, lab: Lab, subs: seq<Subscriber>, m: Move)
    requires Compatible(start.rows, subs) && Invariant(start, lab, subs)
    requires m.rig < |subs| && lab.phases[m.rig] == Fresh
    ensures Invariant(start, Step(lab, subs, m), subs)
  {
    var next, x := Step(lab, subs, m), lab.island;
    assert subs[m.rig] in subs;
    CompatibleAdds(start.rows, x.rows, subs, subs[m.rig]);
    ActHealthy(x, StoreAction(AddIfMissing(subs[m.rig])));
    ListingStays(start.rows, x.rows, next.island.rows);
    AddedPhases(start, lab, subs, m, next);
  }

  /** Where nothing but the rows has grown and one rig has added, what held of listings still does. */
  lemma AddedPhases(start: Island, lab: Lab, subs: seq<Subscriber>, m: Move, next: Lab)
    requires Invariant(start, lab, subs) && m.rig < |subs| && lab.phases[m.rig] == Fresh
    requires next.phases == lab.phases[m.rig := Added] && next.island.docs == lab.island.docs
    requires forall listed | IsListing(start.rows, lab.island.rows, listed) ::
      IsListing(start.rows, next.island.rows, listed)
    ensures forall r | 0 <= r < |subs| :: ListsItself(start.rows, next, subs, r)
    ensures Reflects(start.rows, next)
  {
    forall r | 0 <= r < |subs| ensures ListsItself(start.rows, next, subs, r) {
      assert ListsItself(start.rows, lab, subs, r);
    }
    if Synchronized in next.phases {
      assert Synchronized in lab.phases;
      var listed :| IsListing(start.rows, lab.island.rows, listed) && Mirrors(lab.island.docs, listed);
      assert IsListing(start.rows, next.island.rows, listed);
    }
  }

  lemma ListKeeps(start: Island, lab: Lab, subs: seq<Subscriber>, m: Move)
    requires Compatible(start.rows, subs) && Invariant(start, lab, subs)
    requires m.rig < |subs| && lab.phases[m.rig] == Added
    ensures Invariant(start, Step(lab, subs, m), subs)
  {
    var next, x := Step(lab, subs, m), lab.island;
    GrownRunnable(start.rows, x.rows, subs);
    ListAllRows(x.rows);
    forall r | 0 <= r < |subs| ensures ListsItself(start.rows, next, subs, r) {
      assert ListsItself(start.rows, lab, subs, r);
      if r == m.rig {
        var t :| t in x.rows && t.imsi == subs[r].imsi;
        assert t in ListAll(x.rows);
      }
    }
    assert Synchronized in next.phases ==> Synchronized in lab.phases;
  }

  lemma ScriptReflects(rows: seq<Subscriber>, x: Island, y: Island, listed: seq<Subscriber>, ids: seq<Ids>)
    requires Healthy(x) && IsListing(rows, x.rows, listed) && y == Act(x, ScriptAction(listed, ids))
    ensures Healthy(y) && MarkedOnly(y.docs) == MarkedOnly(x.docs) && y.rows == x.rows
    ensures Mirrors(y.docs, listed)
  {
    ActHealthy(x, ScriptAction(listed, ids));
    SyncMirrors(x.docs, listed, ids);
  }

  lemma ScriptKeeps(start: Island, lab: Lab, subs: seq<Subscriber>, m: Move)
    requires Compatible(start.rows, subs) && Invariant(start, lab, subs)
    requires m.rig < |subs| && lab.phases[m.rig].HasListed?
    ensures Invariant(start, Step(lab, subs, m), subs)
  {
    var next, listed := Step(lab, subs, m), lab.phases[m.rig].listed;
    assert ListsItself(start.rows, lab, subs, m.rig);
    ScriptReflects(start.rows, lab.island, next.island, listed, m.ids);
    assert IsListing(start.rows, next.island.rows, listed);
    forall r | 0 <= r < |subs|
      ensures ListsItself(start.rows, next, subs, r) && (next.phases[r] != Fresh ==> lab.phases[r] != Fresh)
    {
      assert ListsItself(start.rows, lab, subs, r);
    }
  }

  lemma StepKeeps(start: Island, lab: Lab, subs: seq<Subscriber>, m: Move)
    requires Compatible(start.rows, subs) && Invariant(start, lab, subs)
    ensures Invariant(start, Step(lab, subs, m), subs)
  {
    if m.rig < |subs| {
      match lab.phases[m.rig] {
        case Fresh => AddKeeps(start, lab, subs, m);
        case Added => ListKeeps(start, lab, subs, m);
        case HasListed(_) => ScriptKeeps(start, lab, subs, m);
        case Synchronized =>
      }
    }
  }

  lemma {:induction false} RunKeeps(start: Island, lab: Lab, subs: seq<Subscriber>, moves: seq<Move>)
    requires Compatible(start.rows, subs) && Invariant(start, lab, subs)
    ensures Invariant(start, Run(lab, subs, moves), subs)
    decreases moves
  {
    if moves != [] {
      StepKeeps(start, lab, subs, moves[0]);
      RunKeeps(start, Step(lab, subs, moves[0]), subs, moves[1..]);
    }
  }

  function Begin(x: Island, subs: seq<Subscriber>): (lab: Lab)
    ensures |lab.phases| == |subs| && forall p | p in lab.phases :: p == Fresh
  {
    Lab(x, seq(|subs|, _ => Fresh))
  }

  lemma BeginInvariant(x: Island, subs: seq<Subscriber>)
    requires Healthy(x)
    ensures Invariant(x, Begin(x, subs), subs)
  {
  }

  // ----- when a rig is lost -----

  /** After a script the collection has a document for an IMSI exactly when a roamer's document holds it or the
      listing has it, however old the listing is. */
  lemma ScriptFinds(docs: seq<Value>, listed: seq<Subscriber>, ids: seq<Ids>, imsi: string)
    requires Sound(docs) && OnePerImsi(docs) && DistinctImsis(listed) && Runnable(listed)
    ensures Find(DocsAfter(docs, listed, ids), imsi).Some? <==> Held(docs, imsi) || HasRow(listed, imsi)
  {
    var entries := EntriesOf(listed, ids);
    EntriesWanted(listed, ids);
    SyncSettles(docs, entries);
    SyncAccounts(docs, entries);
    SyncedFinds(docs, entries, Synced(docs, entries), imsi);
    EntriesHave(listed, ids, imsi);
  }

  predicate HasEntry(entries: seq<Entry>, imsi: string) { exists e | e in entries :: e.imsi == imsi }

  lemma EntriesHave(listed: seq<Subscriber>, ids: seq<Ids>, imsi: string)
    ensures HasEntry(EntriesOf(listed, ids), imsi) <==> HasRow(listed, imsi)
  {
    var entries := EntriesOf(listed, ids);
    forall i | 0 <= i < |listed| ensures entries[i].imsi == listed[i].imsi {}
    if HasRow(listed, imsi) {
      var s :| s in listed && s.imsi == imsi;
      var i :| 0 <= i < |listed| && listed[i] == s;
      assert entries[i] in entries;
    }
    if HasEntry(entries, imsi) {
      var e :| e in entries && e.imsi == imsi;
      var i :| 0 <= i < |entries| && entries[i] == e;
      assert listed[i] in listed;
    }
  }

  lemma SyncedFinds(docs: seq<Value>, entries: seq<Entry>, after: seq<Value>, imsi: string)
    requires OnePerImsi(docs) && InSync(after, entries) && MarkedOnly(after) == MarkedOnly(docs)
    ensures Find(after, imsi).Some? <==> Held(docs, imsi) || HasEntry(entries, imsi)
  {
    MarkedOnlyMembers(docs);
    MarkedOnlyMembers(after);
    FindMember(docs, imsi);
    FindMember(after, imsi);
    if Held(docs, imsi) {
      assert Find(docs, imsi).value in MarkedOnly(after);
    }
    if e :| e in entries && e.imsi == imsi {
      assert Settled(after, e);
    }
    if Find(after, imsi).Some? {
      var d := Find(after, imsi).value;
      if Marked(d) {
        OneMeansFound(docs, d, imsi);
      } else {
        var e :| e in entries && HasImsi(d, e.imsi);
      }
    }
  }

  /** No rig that has synced already is missing from the listing this step's script runs over. */
  predicate StepTimely(lab: Lab, subs: seq<Subscriber>, m: Move)
    requires |subs| == |lab.phases|
  {
    m.rig < |subs| && lab.phases[m.rig].HasListed? ==>
      forall r | 0 <= r < |subs| && lab.phases[r] == Synchronized ::
        HasRow(lab.phases[m.rig].listed, subs[r].imsi) || Held(lab.island.docs, subs[r].imsi)
  }

  predicate Timely(lab: Lab, subs: seq<Subscriber>, moves: seq<Move>)
    requires |subs| == |lab.phases|
    decreases moves
  {
    moves == [] || (StepTimely(lab, subs, moves[0]) && Timely(Step(lab, subs, moves[0]), subs, moves[1..]))
  }

  predicate NeverLost(lab: Lab, subs: seq<Subscriber>, moves: seq<Move>)
    requires |subs| == |lab.phases|
    decreases moves
  {
    NoneLost(lab, subs) && (moves != [] ==> NeverLost(Step(lab, subs, moves[0]), subs, moves[1..]))
  }

  lemma ScriptIs(lab: Lab, subs: seq<Subscriber>, m: Move, listed: seq<Subscriber>)
    requires |subs| == |lab.phases| && m.rig < |subs| && lab.phases[m.rig] == HasListed(listed)
    ensures Step(lab, subs, m).island.docs == DocsAfter(lab.island.docs, listed, m.ids)
    ensures Step(lab, subs, m).phases == lab.phases[m.rig := Synchronized]
  {
  }

  lemma ListingFacts(start: Island, lab: Lab, subs: seq<Subscriber>, rig: nat, listed: seq<Subscriber>)
    requires Invariant(start, lab, subs) && rig < |subs| && lab.phases[rig] == HasListed(listed)
    ensures DistinctImsis(listed) && Runnable(listed) && HasRow(listed, subs[rig].imsi)
    ensures Sound(lab.island.docs) && OnePerImsi(lab.island.docs)
  {
    assert ListsItself(start.rows, lab, subs, rig);
  }

  /** What a script leaves of every rig, and what it does to the phases. */
  lemma ScriptStep(start: Island, lab: Lab, subs: seq<Subscriber>, m: Move, r: nat)
    requires Invariant(start, lab, subs) && m.rig < |subs| && lab.phases[m.rig].HasListed? && r < |subs|
    ensures Find(Step(lab, subs, m).island.docs, subs[r].imsi).Some? <==>
            Held(lab.island.docs, subs[r].imsi) || HasRow(lab.phases[m.rig].listed, subs[r].imsi)
    ensures Step(lab, subs, m).phases[r] == if r == m.rig then Synchronized else lab.phases[r]
    ensures HasRow(lab.phases[m.rig].listed, subs[m.rig].imsi)
  {
    var listed := lab.phases[m.rig].listed;
    ListingFacts(start, lab, subs, m.rig, listed);
    ScriptIs(lab, subs, m, listed);
    ScriptFinds(lab.island.docs, listed, m.ids, subs[r].imsi);
  }

  lemma OtherwiseNoneSync(lab: Lab, subs: seq<Subscriber>, m: Move, r: nat)
    requires |subs| == |lab.phases| && !(m.rig < |subs| && lab.phases[m.rig].HasListed?) && r < |subs|
    ensures Step(lab, subs, m).phases[r] == Synchronized <==> lab.phases[r] == Synchronized
    ensures Step(lab, subs, m).island.docs == lab.island.docs
  {
  }

  lemma StepLosesIff(start: Island, lab: Lab, subs: seq<Subscriber>, m: Move)
    requires Invariant(start, lab, subs) && NoneLost(lab, subs)
    ensures NoneLost(Step(lab, subs, m), subs) <==> StepTimely(lab, subs, m)
  {
    if m.rig < |subs| && lab.phases[m.rig].HasListed? {
      var next, listed := Step(lab, subs, m), lab.phases[m.rig].listed;
      forall r | 0 <= r < |subs|
        ensures Find(next.island.docs, subs[r].imsi).Some? <==>
          Held(lab.island.docs, subs[r].imsi) || HasRow(listed, subs[r].imsi)
        ensures next.phases[r] == (if r == m.rig then Synchronized else lab.phases[r])
        ensures r == m.rig ==> HasRow(listed, subs[r].imsi)
      {
        ScriptStep(start, lab, subs, m, r);
      }
      LosesIff(lab, subs, m, next, listed);
    } else {
      forall r | 0 <= r < |subs|
        ensures Step(lab, subs, m).phases[r] == Synchronized <==> lab.phases[r] == Synchronized
        ensures Step(lab, subs, m).island.docs == lab.island.docs
      {
        OtherwiseNoneSync(lab, subs, m, r);
      }
    }
  }

  lemma LosesIff(lab: Lab, subs: seq<Subscriber>, m: Move, next: Lab, listed: seq<Subscriber>)
    requires |subs| == |lab.phases| == |next.phases| && m.rig < |subs| && lab.phases[m.rig] == HasListed(listed)
    requires forall r | 0 <= r < |subs| ::
      && (Find(next.island.docs, subs[r].imsi).Some? <==>
          Held(lab.island.docs, subs[r].imsi) || HasRow(listed, subs[r].imsi))
      && next.phases[r] == (if r == m.rig then Synchronized else lab.phases[r])
      && (r == m.rig ==> HasRow(listed, subs[r].imsi))
    ensures NoneLost(next, subs) <==> StepTimely(lab, subs, m)
  {
  }

  lemma {:induction false} RunLosesIff(start: Island, lab: Lab, subs: seq<Subscriber>, moves: seq<Move>)
    requires Compatible(start.rows, subs) && Invariant(start, lab, subs) && NoneLost(lab, subs)
    ensures NeverLost(lab, subs, moves) <==> Timely(lab, subs, moves)
    decreases moves, 0
  {
    if moves != [] {
      StepLosesIff(start, lab, subs, moves[0]);
      StepKeeps(start, lab, subs, moves[0]);
      NextLosesIff(start, Step(lab, subs, moves[0]), subs, moves[1..]);
    }
  }

  lemma {:induction false} NextLosesIff(start: Island, next: Lab, subs: seq<Subscriber>, rest: seq<Move>)
    requires Compatible(start.rows, subs) && Invariant(start, next, subs)
    ensures NeverLost(next, subs, rest) <==> NoneLost(next, subs) && Timely(next, subs, rest)
    decreases rest, 1
  {
    if NoneLost(next, subs) {
      RunLosesIff(start, next, subs, rest);
    }
  }

  /** Over any interleaving, no rig ever deletes what another has synced exactly when every script's listing has the
      rigs that synced before it. */
  lemma RigLostIff(x: Island, subs: seq<Subscriber>, moves: seq<Move>)
    requires Healthy(x) && Compatible(x.rows, subs)
    ensures NeverLost(Begin(x, subs), subs, moves) <==> Timely(Begin(x, subs), subs, moves)
  {
    BeginInvariant(x, subs);
    RunLosesIff(x, Begin(x, subs), subs, moves);
  }

  /** Every listing is followed at once by the script over it. */
  predicate Undivided(lab: Lab, subs: seq<Subscriber>, moves: seq<Move>)
    requires |subs| == |lab.phases|
    decreases |moves|
  {
    if moves == [] then true
    else if moves[0].rig < |subs| && lab.phases[moves[0].rig] == Added then
      |moves| == 1 || (moves[1].rig == moves[0].rig &&
        Undivided(Step(Step(lab, subs, moves[0]), subs, moves[1]), subs, moves[2..]))
    else Undivided(Step(lab, subs, moves[0]), subs, moves[1..])
  }

  predicate NoneListed(lab: Lab) { forall p | p in lab.phases :: !p.HasListed? }

  /** A listing that is used at once is timely. */
  lemma FreshListing(start: Island, lab: Lab, subs: seq<Subscriber>, m: Move)
    requires Compatible(start.rows, subs) && Invariant(start, lab, subs)
    requires m.rig < |subs| && lab.phases[m.rig] == Added
    ensures forall ids :: StepTimely(Step(lab, subs, m), subs, Move(m.rig, ids))
  {
    ListAllRows(lab.island.rows);
    forall r | 0 <= r < |subs| && lab.phases[r] == Synchronized ensures HasRow(ListAll(lab.island.rows), subs[r].imsi) {
      var t :| t in lab.island.rows && t.imsi == subs[r].imsi;
      assert t in ListAll(lab.island.rows);
    }
    forall r | 0 <= r < |subs| && r != m.rig ensures Step(lab, subs, m).phases[r] == lab.phases[r] {}
  }

  lemma {:induction false} UndividedTimely(start: Island, lab: Lab, subs: seq<Subscriber>, moves: seq<Move>)
    requires Compatible(start.rows, subs) && Invariant(start, lab, subs) && NoneListed(lab)
    requires Undivided(lab, subs, moves)
    ensures Timely(lab, subs, moves)
    decreases |moves|
  {
    if moves != [] {
      var m := moves[0];
      StepKeeps(start, lab, subs, m);
      if m.rig < |subs| && lab.phases[m.rig] == Added {
        if |moves| > 1 {
          PairTimely(start, lab, subs, m, moves[1]);
          assert moves[1..][1..] == moves[2..];
          UndividedTimely(start, Step(Step(lab, subs, m), subs, moves[1]), subs, moves[2..]);
        }
      } else {
        OtherStep(lab, subs, m);
        UndividedTimely(start, Step(lab, subs, m), subs, moves[1..]);
      }
    }
  }

  lemma PairTimely(start: Island, lab: Lab, subs: seq<Subscriber>, m: Move, n: Move)
    requires Compatible(start.rows, subs) && Invariant(start, lab, subs) && NoneListed(lab)
    requires m.rig < |subs| && lab.phases[m.rig] == Added && n.rig == m.rig
    ensures var next := Step(lab, subs, m);
      && StepTimely(lab, subs, m) && StepTimely(next, subs, n)
      && Invariant(start, Step(next, subs, n), subs) && NoneListed(Step(next, subs, n))
  {
    FreshListing(start, lab, subs, m);
    StepKeeps(start, lab, subs, m);
    StepKeeps(start, Step(lab, subs, m), subs, n);
    assert n == Move(m.rig, n.ids);
    PairPhases(lab, subs, m, n);
  }

  /** A listing and its script leave no listing behind. */
  lemma PairPhases(lab: Lab, subs: seq<Subscriber>, m: Move, n: Move)
    requires |subs| == |lab.phases| && NoneListed(lab)
    requires m.rig < |subs| && lab.phases[m.rig] == Added && n.rig == m.rig
    ensures NoneListed(Step(Step(lab, subs, m), subs, n))
  {
    var next := Step(lab, subs, m);
    assert next.phases[m.rig].HasListed?;
    var after := Step(next, subs, n).phases;
    assert after == lab.phases[m.rig := Synchronized];
    forall r | 0 <= r < |after| ensures !after[r].HasListed? {
      assert lab.phases[r] in lab.phases;
    }
  }

  lemma OtherStep(lab: Lab, subs: seq<Subscriber>, m: Move)
    requires |subs| == |lab.phases| && NoneListed(lab) && !(m.rig < |subs| && lab.phases[m.rig] == Added)
    ensures NoneListed(Step(lab, subs, m)) && StepTimely(lab, subs, m)
  {
    assert m.rig < |subs| ==> lab.phases[m.rig] in lab.phases;
  }

  /** When no rig does anything between another's listing and its script, no rig is ever lost. */
  lemma NoRigIsLost(x: Island, subs: seq<Subscriber>, moves: seq<Move>)
    requires Healthy(x) && Compatible(x.rows, subs) && Undivided(Begin(x, subs), subs, moves)
    ensures NeverLost(Begin(x, subs), subs, moves)
  {
    BeginInvariant(x, subs);
    UndividedTimely(x, Begin(x, subs), subs, moves);
    RigLostIff(x, subs, moves);
  }

  /** The first rig has listed the store; the second has added its subscriber and synced since. */
  function Overtaken(lab: Lab, subs: seq<Subscriber>, a: Move, b: Move): (r: Lab)
    requires |subs| == |lab.phases|
    ensures |subs| == |r.phases|
  {
    Step(Step(Step(Step(Step(lab, subs, a), subs, a), subs, b), subs, b), subs, b)
  }

  lemma OvertakenKeeps(x: Island, subs: seq<Subscriber>, a: Move, b: Move)
    requires Healthy(x) && Compatible(x.rows, subs)
    ensures Invariant(x, Overtaken(Begin(x, subs), subs, a, b), subs)
  {
    var l0 := Begin(x, subs);
    var l1 := Step(l0, subs, a);
    var l2 := Step(l1, subs, a);
    var l3 := Step(l2, subs, b);
    var l4 := Step(l3, subs, b);
    BeginInvariant(x, subs);
    StepKeeps(x, l0, subs, a);
    StepKeeps(x, l1, subs, a);
    StepKeeps(x, l2, subs, b);
    StepKeeps(x, l3, subs, b);
    StepKeeps(x, l4, subs, b);
  }

  /** What the phases of two rigs become when one of them moves. */
  lemma PairStep(lab: Lab, subs: seq<Subscriber>, m: Move, p: Phase, q: Phase)
    requires |subs| == 2 && lab.phases == [p, q] && m.rig < 2
    ensures var own, next := if m.rig == 0 then p else q, Step(lab, subs, m);
      var moved :=
        if own.Fresh? then Added else if own.Added? then HasListed(ListAll(lab.island.rows)) else Synchronized;
      && next.phases == (if m.rig == 0 then [moved, q] else [p, moved])
      && (own.Fresh? ==> next.island.rows == RowsAfter(lab.island.rows, AddIfMissing(subs[m.rig])))
  {
  }

  lemma OvertakenPhases(x: Island, subs: seq<Subscriber>, a: Move, b: Move)
    requires |subs| == 2 && a.rig == 0 && b.rig == 1
    ensures Overtaken(Begin(x, subs), subs, a, b).phases ==
            [HasListed(ListAll(RowsAfter(x.rows, AddIfMissing(subs[0])))), Synchronized]
  {
    var l0 := Begin(x, subs);
    assert l0.phases == [Fresh, Fresh];
    var l1 := Step(l0, subs, a);
    PairStep(l0, subs, a, Fresh, Fresh);
    SecondOvertakes(l1, subs, a, b);
  }

  lemma SecondOvertakes(l1: Lab, subs: seq<Subscriber>, a: Move, b: Move)
    requires |subs| == 2 && a.rig == 0 && b.rig == 1 && l1.phases == [Added, Fresh]
    ensures Step(Step(Step(Step(l1, subs, a), subs, b), subs, b), subs, b).phases ==
            [HasListed(ListAll(l1.island.rows)), Synchronized]
  {
    var first := HasListed(ListAll(l1.island.rows));
    var l2 := Step(l1, subs, a);
    PairStep(l1, subs, a, Added, Fresh);
    var l3 := Step(l2, subs, b);
    PairStep(l2, subs, b, first, Fresh);
    var l4 := Step(l3, subs, b);
    PairStep(l3, subs, b, first, Added);
    PairStep(l4, subs, b, first, HasListed(ListAll(l3.island.rows)));
  }

  /** The first rig lists the store before the second adds its subscriber, and runs its script after the second has
      synced: the second has synced, its subscriber is in the store, and it is gone from the core. */
  lemma {:induction false} StaleListingLosesRig(x: Island, subs: seq<Subscriber>, ids: seq<Ids>)
    requires Healthy(x) && Compatible(x.rows, subs) && |subs| == 2 && subs[0].imsi != subs[1].imsi
    requires !HasRow(x.rows, subs[1].imsi) && !Held(x.docs, subs[1].imsi)
    ensures var a, b := Move(0, ids), Move(1, ids);
      var end := Run(Begin(x, subs), subs, [a, a, b, b, b, a]);
      AllDone(end) && HasRow(end.island.rows, subs[1].imsi) && Find(end.island.docs, subs[1].imsi).None?
  {
    var a, b := Move(0, ids), Move(1, ids);
    var lab := Overtaken(Begin(x, subs), subs, a, b);
    SixMoves(Begin(x, subs), subs, a, a, b, b, b, a);
    OvertakenKeeps(x, subs, a, b);
    OvertakenPhases(x, subs, a, b);
    LastScript(x, lab, subs, a);
  }

  lemma LastScript(x: Island, lab: Lab, subs: seq<Subscriber>, a: Move)
    requires Healthy(x) && Invariant(x, lab, subs) && |subs| == 2 && subs[0].imsi != subs[1].imsi && a.rig == 0
    requires !HasRow(x.rows, subs[1].imsi) && !Held(x.docs, subs[1].imsi)
    requires lab.phases == [HasListed(ListAll(RowsAfter(x.rows, AddIfMissing(subs[0])))), Synchronized]
    ensures var end := Step(lab, subs, a);
      AllDone(end) && HasRow(end.island.rows, subs[1].imsi) && Find(end.island.docs, subs[1].imsi).None?
  {
    var imsi, listed := subs[1].imsi, ListAll(RowsAfter(x.rows, AddIfMissing(subs[0])));
    assert ListsItself(x.rows, lab, subs, 0);
    FirstListing(x.rows, subs[0], imsi);
    StillNotHeld(x, lab.island, imsi);
    assert lab.phases[1] == Synchronized;
    StaleScript(lab, subs, a, listed);
  }

  lemma StaleScript(lab: Lab, subs: seq<Subscriber>, a: Move, listed: seq<Subscriber>)
    requires |subs| == 2 && a.rig == 0 && lab.phases == [HasListed(listed), Synchronized]
    requires Sound(lab.island.docs) && OnePerImsi(lab.island.docs) && DistinctImsis(listed) && Runnable(listed)
    requires !HasRow(listed, subs[1].imsi) && !Held(lab.island.docs, subs[1].imsi)
    ensures var end := Step(lab, subs, a);
      && AllDone(end) && end.island.rows == lab.island.rows && Find(end.island.docs, subs[1].imsi).None?
  {
    ScriptFinds(lab.island.docs, listed, a.ids, subs[1].imsi);
    assert Step(lab, subs, a).phases == [Synchronized, Synchronized];
  }

  lemma FirstListing(rows: seq<Subscriber>, s: Subscriber, imsi: string)
    requires DistinctImsis(rows) && !HasRow(rows, imsi) && s.imsi != imsi
    ensures !HasRow(ListAll(RowsAfter(rows, AddIfMissing(s))), imsi)
  {
    ApplyDistinct(rows, s);
    ListAllRows(RowsAfter(rows, AddIfMissing(s)));
  }

  lemma StillNotHeld(x: Island, y: Island, imsi: string)
    requires Healthy(x) && Healthy(y) && MarkedOnly(y.docs) == MarkedOnly(x.docs) && !Held(x.docs, imsi)
    ensures !Held(y.docs, imsi)
  {
    if Held(y.docs, imsi) {
      HeldInBoth(y, x, imsi);
    }
  }

  lemma ApplyDistinct(rows: seq<Subscriber>, s: Subscriber)
    requires DistinctImsis(rows)
    ensures DistinctImsis(RowsAfter(rows, AddIfMissing(s)))
    ensures forall t | t in RowsAfter(rows, AddIfMissing(s)) :: t in rows || t == s
  {
    RowOfMember(rows, s.imsi);
  }

  lemma SixMoves(lab: Lab, subs: seq<Subscriber>, a: Move, b: Move, c: Move, d: Move, e: Move, f: Move)
    requires |subs| == |lab.phases|
    ensures Run(lab, subs, [a, b, c, d, e, f]) ==
            Step(Step(Step(Step(Step(Step(lab, subs, a), subs, b), subs, c), subs, d), subs, e), subs, f)
  {
    assert [a, b, c, d, e, f][1..] == [b, c, d, e, f] && [b, c, d, e, f][1..] == [c, d, e, f];
    assert [c, d, e, f][1..] == [d, e, f] && [d, e, f][1..] == [e, f] && [e, f][1..] == [f] && [f][1..] == [];
    var three := Step(Step(Step(lab, subs, a), subs, b), subs, c);
    assert Run(Step(Step(three, subs, d), subs, e), subs, [f]) == Step(Step(Step(three, subs, d), subs, e), subs, f);
    assert Run(three, subs, [d, e, f]) == Run(Step(three, subs, d), subs, [e, f]);
    assert Run(lab, subs, [a, b, c, d, e, f]) == Run(Step(lab, subs, a), subs, [b, c, d, e, f]);
    assert Run(Step(lab, subs, a), subs, [b, c, d, e, f]) == Run(Step(Step(lab, subs, a), subs, b), subs, [c, d, e, f]);
  }

  // ----- when every rig has finished -----

  /** What the lab looks like when every rig has finished, in whatever order they went: the old store plus
      every rig's subscriber, mirrored by the collection. */
  ghost predicate Settles(x: Island, subs: seq<Subscriber>, y: Island) {
    && Healthy(y) && Mirrors(y.docs, ListAll(y.rows)) && MarkedOnly(y.docs) == MarkedOnly(x.docs)
    && (forall s | s in x.rows :: s in y.rows)
    && (forall s | s in subs :: HasRow(y.rows, s.imsi))
    && forall s | s in y.rows :: s in x.rows || s in subs
  }

  /** When no rig is lost, rows that the last listing lacks are under a roamer's document: the collection mirrors the
      whole store. */
  lemma LastListingMirrors(x: Island, lab: Lab, subs: seq<Subscriber>, listed: seq<Subscriber>)
    requires Invariant(x, lab, subs) && AllDone(lab) && NoneLost(lab, subs)
    requires IsListing(x.rows, lab.island.rows, listed) && Mirrors(lab.island.docs, listed)
    ensures Mirrors(lab.island.docs, ListAll(lab.island.rows))
  {
    var rows := lab.island.rows;
    ListAllRows(rows);
    forall s | s in ListAll(rows) && s !in listed ensures Held(lab.island.docs, s.imsi) {
      assert s in rows && s in subs;
      var r :| 0 <= r < |subs| && subs[r] == s;
      assert lab.phases[r] in lab.phases;
      UnlistedHeld(lab.island, listed, s);
    }
    MirrorsMore(lab.island.docs, listed, ListAll(rows));
  }

  /** A collection that mirrors a listing mirrors a longer one too, if roamers' documents hold the rest. */
  lemma MirrorsMore(docs: seq<Value>, listed: seq<Subscriber>, all: seq<Subscriber>)
    requires Mirrors(docs, listed) && forall s | s in listed :: s in all
    requires forall s | s in all && s !in listed :: Held(docs, s.imsi)
    ensures Mirrors(docs, all)
  {
    var entries, more := EntriesOf(listed, []), EntriesOf(all, []);
    forall e | e in more ensures Settled(docs, e) {
      var i :| 0 <= i < |more| && more[i] == e;
      MoreSettled(docs, listed, all[i], IdAt([], i));
    }
    forall imsi | HasEntry(entries, imsi) ensures HasEntry(more, imsi) {
      EntriesHave(listed, [], imsi);
      EntriesHave(all, [], imsi);
      var s :| s in listed && s.imsi == imsi;
      assert s in all;
    }
    InSyncMore(docs, entries, more);
  }

  lemma InSyncMore(docs: seq<Value>, entries: seq<Entry>, more: seq<Entry>)
    requires InSync(docs, entries) && forall e | e in more :: Settled(docs, e)
    requires forall imsi | HasEntry(entries, imsi) :: HasEntry(more, imsi)
    ensures InSync(docs, more)
  {
    forall d | d in docs ensures Marked(d) || Listed(Imsis(more), d) {
      if !Marked(d) {
        var e :| e in entries && HasImsi(d, e.imsi);
        assert HasEntry(entries, e.imsi);
        var m :| m in more && m.imsi == e.imsi;
        assert m.imsi in Imsis(more) && HasImsi(d, m.imsi);
      }
    }
  }

  lemma MoreSettled(docs: seq<Value>, listed: seq<Subscriber>, s: Subscriber, ids: Ids)
    requires Mirrors(docs, listed) && (s !in listed ==> Held(docs, s.imsi))
    ensures Settled(docs, EntryOf(s, ids))
  {
    if s in listed {
      var entries := EntriesOf(listed, []);
      var j :| 0 <= j < |listed| && listed[j] == s;
      assert entries[j] in entries && Settled(docs, entries[j]);
      SettledAnyId(docs, s, IdAt([], j), ids);
    }
  }

  lemma SettledAnyId(docs: seq<Value>, s: Subscriber, i: Ids, j: Ids)
    requires Sound(docs) && Settled(docs, EntryOf(s, i))
    ensures Settled(docs, EntryOf(s, j))
  {
    DocsAgreeIff(s, s, i, j);
    DocValid(s, i);
    DocValid(s, j);
    SettledAgreeing(docs, EntryOf(s, i), EntryOf(s, j));
  }

  lemma SettledAgreeing(docs: seq<Value>, e: Entry, f: Entry)
    requires Sound(docs) && Settled(docs, e) && e.imsi == f.imsi
    requires Valid(e.doc) && Valid(f.doc) && Agrees(e.doc, f.doc)
    ensures Settled(docs, f)
  {
    FindMember(docs, e.imsi);
    var d := Find(docs, e.imsi).value;
    if !Marked(d) {
      AgreesTransitive(d, e.doc, f.doc);
    }
  }

  lemma UnlistedHeld(y: Island, listed: seq<Subscriber>, s: Subscriber)
    requires Healthy(y) && Mirrors(y.docs, listed) && s in y.rows && s !in listed
    requires (forall t | t in listed :: t in y.rows) && Find(y.docs, s.imsi).Some?
    ensures Held(y.docs, s.imsi)
  {
    FindMember(y.docs, s.imsi);
    var d := Find(y.docs, s.imsi).value;
    if !Marked(d) {
      var i := MirroredEntry(y.docs, EntriesOf(listed, []), d, s.imsi);
      assert listed[i] in y.rows && listed[i].imsi == s.imsi;
      RowOfMember(y.rows, s.imsi);
    }
  }

  /** When every rig has finished, the lab has settled exactly when no rig is lost at that moment. */
  lemma SettledIffNoneLost(x: Island, end: Lab, subs: seq<Subscriber>)
    requires Invariant(x, end, subs) && AllDone(end) && subs != []
    ensures Settles(x, subs, end.island) <==> NoneLost(end, subs)
  {
    assert end.phases[0] in end.phases;
    forall s | s in subs ensures HasRow(end.island.rows, s.imsi) {
      var r :| 0 <= r < |subs| && subs[r] == s;
      assert end.phases[r] in end.phases;
    }
    if NoneLost(end, subs) {
      var listed :| IsListing(x.rows, end.island.rows, listed) && Mirrors(end.island.docs, listed);
      LastListingMirrors(x, end, subs, listed);
    } else if Settles(x, subs, end.island) {
      SettledFinds(x, subs, end);
    }
  }

  lemma SettledFinds(x: Island, subs: seq<Subscriber>, end: Lab)
    requires |subs| == |end.phases| && Settles(x, subs, end.island)
    ensures NoneLost(end, subs)
  {
    ListAllRows(end.island.rows);
    forall r | 0 <= r < |subs| ensures Find(end.island.docs, subs[r].imsi).Some? {
      assert subs[r] in subs;
      var t :| t in end.island.rows && t.imsi == subs[r].imsi;
      MirroredFinds(end.island.docs, ListAll(end.island.rows), t);
    }
  }

  // ----- the schedule alone -----

  /** How far a rig has got, read off the order of the moves; a listing by the rigs that had added before it. */
  datatype Stage = NotYet | Stored | Has(rigs: set<nat>) | Finished

  function StoredBy(stages: seq<Stage>): set<nat> { set r | 0 <= r < |stages| && stages[r] != NotYet }

  function Advance(stages: seq<Stage>, rig: nat): (r: seq<Stage>)
    ensures |r| == |stages|
  {
    if rig >= |stages| then stages else
    match stages[rig]
    case NotYet => stages[rig := Stored]
    case Stored => stages[rig := Has(StoredBy(stages))]
    case Has(_) => stages[rig := Finished]
    case Finished => stages
  }

  function AdvanceAll(stages: seq<Stage>, moves: seq<Move>): (r: seq<Stage>)
    ensures |r| == |stages|
    decreases moves
  {
    if moves == [] then stages else AdvanceAll(Advance(stages, moves[0].rig), moves[1..])
  }

  function Unstarted(n: nat): seq<Stage> { seq(n, _ => NotYet) }

  predicate AllFinished(stages: seq<Stage>) { forall r | 0 <= r < |stages| :: stages[r] == Finished }

  /** Every rig adds, lists and runs its script. */
  predicate Completes(n: nat, moves: seq<Move>) { AllFinished(AdvanceAll(Unstarted(n), moves)) }

  /** A store that began with these rows and to which these rigs have added has the IMSI. */
  predicate Known(rows: seq<Subscriber>, subs: seq<Subscriber>, rigs: set<nat>, imsi: string) {
    HasRow(rows, imsi) || exists r | r in rigs :: r < |subs| && subs[r].imsi == imsi
  }

  /** Every rig's subscriber is in the listing, or a roamer's document holds its IMSI. */
  predicate Covers(x: Island, subs: seq<Subscriber>, rigs: set<nat>) {
    forall r | 0 <= r < |subs| :: Known(x.rows, subs, rigs, subs[r].imsi) || Held(x.docs, subs[r].imsi)
  }

  /** The script that is about to run is the last one. */
  predicate IsLast(stages: seq<Stage>, rig: nat) {
    && rig < |stages| && stages[rig].Has?
    && forall r | 0 <= r < |stages| && r != rig :: stages[r] == Finished
  }

  /** The last script to run is over a listing that covers every rig. */
  predicate LastCovers(x: Island, subs: seq<Subscriber>, stages: seq<Stage>, moves: seq<Move>)
    decreases moves
  {
    if moves == [] then true
    else if IsLast(stages, moves[0].rig) then Covers(x, subs, stages[moves[0].rig].rigs)
    else LastCovers(x, subs, Advance(stages, moves[0].rig), moves[1..])
  }

  // ----- the schedule and the lab -----

  ghost predicate SameStage(rows: seq<Subscriber>, subs: seq<Subscriber>, p: Phase, g: Stage) {
    match g
    case NotYet => p == Fresh
    case Stored => p == Added
    case Has(rigs) => p.HasListed? && forall imsi :: HasRow(p.listed, imsi) <==> Known(rows, subs, rigs, imsi)
    case Finished => p == Synchronized
  }

  ghost predicate Tracks(x: Island, lab: Lab, subs: seq<Subscriber>, stages: seq<Stage>) {
    && |stages| == |subs| == |lab.phases|
    && (forall imsi :: HasRow(lab.island.rows, imsi) <==> Known(x.rows, subs, StoredBy(stages), imsi))
    && forall r | 0 <= r < |subs| :: SameStage(x.rows, subs, lab.phases[r], stages[r])
  }

  lemma TracksBegin(x: Island, subs: seq<Subscriber>)
    ensures Tracks(x, Begin(x, subs), subs, Unstarted(|subs|))
  {
    assert StoredBy(Unstarted(|subs|)) == {};
    forall r | 0 <= r < |subs| ensures Begin(x, subs).phases[r] == Fresh {}
  }

  lemma AddedRow(start: Island, x: Island, subs: seq<Subscriber>, s: Subscriber, imsi: string)
    requires Compatible(start.rows, subs) && s in subs && DistinctImsis(x.rows)
    requires forall t | t in x.rows :: t in start.rows || t in subs
    ensures HasRow(RowsAfter(x.rows, AddIfMissing(s)), imsi) <==> HasRow(x.rows, imsi) || s.imsi == imsi
  {
    CompatibleAdds(start.rows, x.rows, subs, s);
    if HasRow(x.rows, imsi) {
      var t :| t in x.rows && t.imsi == imsi;
      assert t in RowsAfter(x.rows, AddIfMissing(s));
    }
  }

  lemma KnownMore(rows: seq<Subscriber>, subs: seq<Subscriber>, rigs: set<nat>, rig: nat, imsi: string)
    requires rig < |subs|
    ensures Known(rows, subs, rigs + {rig}, imsi) <==> Known(rows, subs, rigs, imsi) || subs[rig].imsi == imsi
  {
    if subs[rig].imsi == imsi {
      assert rig in rigs + {rig};
    }
    if Known(rows, subs, rigs, imsi) && !HasRow(rows, imsi) {
      var r :| r in rigs && r < |subs| && subs[r].imsi == imsi;
      assert r in rigs + {rig};
    }
  }

  /** Moving one rig on, where the others stay as they were. */
  lemma OthersTrack(rows: seq<Subscriber>, subs: seq<Subscriber>, lab: Lab, stages: seq<Stage>, next: Lab,
      after: seq<Stage>, rig: nat)
    requires |stages| == |after| == |subs| == |lab.phases| == |next.phases| && rig < |subs|
    requires forall r | 0 <= r < |subs| :: SameStage(rows, subs, lab.phases[r], stages[r])
    requires forall r | 0 <= r < |subs| && r != rig :: next.phases[r] == lab.phases[r] && after[r] == stages[r]
    requires SameStage(rows, subs, next.phases[rig], after[rig])
    ensures forall r | 0 <= r < |subs| :: SameStage(rows, subs, next.phases[r], after[r])
  {
    forall r | 0 <= r < |subs| ensures SameStage(rows, subs, next.phases[r], after[r]) {
      assert SameStage(rows, subs, lab.phases[r], stages[r]);
    }
  }

  lemma AddTracks(x: Island, lab: Lab, subs: seq<Subscriber>, stages: seq<Stage>, m: Move)
    requires Compatible(x.rows, subs) && Invariant(x, lab, subs) && Tracks(x, lab, subs, stages)
    requires m.rig < |subs| && lab.phases[m.rig] == Fresh
    ensures Tracks(x, Step(lab, subs, m), subs, Advance(stages, m.rig))
  {
    assert SameStage(x.rows, subs, lab.phases[m.rig], stages[m.rig]);
    var next, after := Step(lab, subs, m), Advance(stages, m.rig);
    assert StoredBy(after) == StoredBy(stages) + {m.rig};
    forall imsi ensures HasRow(next.island.rows, imsi) <==> Known(x.rows, subs, StoredBy(after), imsi) {
      AddedRow(x, lab.island, subs, subs[m.rig], imsi);
      KnownMore(x.rows, subs, StoredBy(stages), m.rig, imsi);
    }
    OthersTrack(x.rows, subs, lab, stages, next, after, m.rig);
  }

  lemma ListTracks(x: Island, lab: Lab, subs: seq<Subscriber>, stages: seq<Stage>, m: Move)
    requires DistinctImsis(lab.island.rows) && Tracks(x, lab, subs, stages)
    requires m.rig < |subs| && lab.phases[m.rig] == Added
    ensures Tracks(x, Step(lab, subs, m), subs, Advance(stages, m.rig))
  {
    assert SameStage(x.rows, subs, lab.phases[m.rig], stages[m.rig]);
    var next, after := Step(lab, subs, m), Advance(stages, m.rig);
    assert StoredBy(after) == StoredBy(stages);
    ListAllRows(lab.island.rows);
    forall imsi ensures HasRow(ListAll(lab.island.rows), imsi) <==> HasRow(lab.island.rows, imsi) {
      SameHas(ListAll(lab.island.rows), lab.island.rows, imsi);
    }
    OthersTrack(x.rows, subs, lab, stages, next, after, m.rig);
  }

  lemma SameHas(rows: seq<Subscriber>, others: seq<Subscriber>, imsi: string)
    requires forall s :: s in rows <==> s in others
    ensures HasRow(rows, imsi) <==> HasRow(others, imsi)
  {
  }

  lemma ScriptTracks(x: Island, lab: Lab, subs: seq<Subscriber>, stages: seq<Stage>, m: Move)
    requires Tracks(x, lab, subs, stages)
    requires m.rig < |subs| && (lab.phases[m.rig].HasListed? || lab.phases[m.rig] == Synchronized)
    ensures Tracks(x, Step(lab, subs, m), subs, Advance(stages, m.rig))
  {
    assert SameStage(x.rows, subs, lab.phases[m.rig], stages[m.rig]);
    assert StoredBy(Advance(stages, m.rig)) == StoredBy(stages);
  }

  lemma StepTracks(x: Island, lab: Lab, subs: seq<Subscriber>, stages: seq<Stage>, m: Move)
    requires Compatible(x.rows, subs) && Invariant(x, lab, subs) && Tracks(x, lab, subs, stages)
    ensures Tracks(x, Step(lab, subs, m), subs, Advance(stages, m.rig))
  {
    if m.rig < |subs| {
      match lab.phases[m.rig] {
        case Fresh => AddTracks(x, lab, subs, stages, m);
        case Added => ListTracks(x, lab, subs, stages, m);
        case _ => ScriptTracks(x, lab, subs, stages, m);
      }
    }
  }

  lemma {:induction false} RunTracks(x: Island, lab: Lab, subs: seq<Subscriber>, stages: seq<Stage>, moves: seq<Move>)
    requires Compatible(x.rows, subs) && Invariant(x, lab, subs) && Tracks(x, lab, subs, stages)
    ensures Tracks(x, Run(lab, subs, moves), subs, AdvanceAll(stages, moves))
    decreases moves
  {
    if moves != [] {
      StepGoesOn(x, lab, subs, stages, moves[0]);
      RunTracks(x, Step(lab, subs, moves[0]), subs, Advance(stages, moves[0].rig), moves[1..]);
    }
  }

  lemma DoneIffFinished(x: Island, lab: Lab, subs: seq<Subscriber>, stages: seq<Stage>)
    requires Tracks(x, lab, subs, stages)
    ensures AllDone(lab) <==> AllFinished(stages)
  {
    forall r | 0 <= r < |subs| ensures lab.phases[r] == Synchronized <==> stages[r] == Finished {
      assert SameStage(x.rows, subs, lab.phases[r], stages[r]);
    }
    if AllDone(lab) {
      forall r | 0 <= r < |subs| ensures stages[r] == Finished {
        assert lab.phases[r] in lab.phases;
      }
    }
  }

  lemma {:induction false} FinishedStays(lab: Lab, subs: seq<Subscriber>, moves: seq<Move>)
    requires |subs| == |lab.phases| && AllDone(lab)
    ensures Run(lab, subs, moves) == lab
    decreases moves
  {
    if moves != [] {
      assert moves[0].rig < |subs| ==> lab.phases[moves[0].rig] in lab.phases;
      FinishedStays(lab, subs, moves[1..]);
    }
  }

  /** The last script loses a rig exactly when its listing does not cover it. */
  lemma LastScriptLosesIff(x: Island, lab: Lab, subs: seq<Subscriber>, stages: seq<Stage>, m: Move)
    requires Healthy(x) && Invariant(x, lab, subs) && Tracks(x, lab, subs, stages) && IsLast(stages, m.rig)
    ensures AllDone(Step(lab, subs, m))
    ensures NoneLost(Step(lab, subs, m), subs) <==> Covers(x, subs, stages[m.rig].rigs)
  {
    var next := Step(lab, subs, m);
    assert SameStage(x.rows, subs, lab.phases[m.rig], stages[m.rig]);
    forall r | 0 <= r < |subs|
      ensures next.phases[r] == Synchronized
      ensures Find(next.island.docs, subs[r].imsi).Some? <==>
        Known(x.rows, subs, stages[m.rig].rigs, subs[r].imsi) || Held(x.docs, subs[r].imsi)
    {
      assert SameStage(x.rows, subs, lab.phases[r], stages[r]);
      ScriptStep(x, lab, subs, m, r);
      SameHeld(x, lab.island, subs[r].imsi);
    }
  }

  lemma SameHeld(x: Island, y: Island, imsi: string)
    requires Healthy(x) && Healthy(y) && MarkedOnly(y.docs) == MarkedOnly(x.docs)
    ensures Held(y.docs, imsi) <==> Held(x.docs, imsi)
  {
    if Held(y.docs, imsi) {
      HeldInBoth(y, x, imsi);
    } else if Held(x.docs, imsi) {
      HeldInBoth(x, y, imsi);
    }
  }

  lemma NotLastNotDone(stages: seq<Stage>, rig: nat)
    requires !AllFinished(stages) && !IsLast(stages, rig)
    ensures !AllFinished(Advance(stages, rig))
  {
    if rig < |stages| && stages[rig].Has? {
      var r :| 0 <= r < |stages| && r != rig && stages[r] != Finished;
      assert Advance(stages, rig)[r] != Finished;
    } else if rig < |stages| && stages[rig] != Finished {
      assert Advance(stages, rig)[rig] != Finished;
    }
  }

  lemma {:induction false} LastLosesIff(x: Island, lab: Lab, subs: seq<Subscriber>, stages: seq<Stage>,
      moves: seq<Move>)
    requires Healthy(x) && Compatible(x.rows, subs) && Invariant(x, lab, subs) && Tracks(x, lab, subs, stages)
    requires !AllFinished(stages) && AllFinished(AdvanceAll(stages, moves))
    ensures NoneLost(Run(lab, subs, moves), subs) <==> LastCovers(x, subs, stages, moves)
    decreases moves
  {
    var m := moves[0];
    if IsLast(stages, m.rig) {
      LastMoves(x, lab, subs, stages, moves);
    } else {
      NotLastNotDone(stages, m.rig);
      StepGoesOn(x, lab, subs, stages, m);
      LastLosesIff(x, Step(lab, subs, m), subs, Advance(stages, m.rig), moves[1..]);
    }
  }

  lemma LastMoves(x: Island, lab: Lab, subs: seq<Subscriber>, stages: seq<Stage>, moves: seq<Move>)
    requires Healthy(x) && Invariant(x, lab, subs) && Tracks(x, lab, subs, stages)
    requires moves != [] && IsLast(stages, moves[0].rig)
    ensures NoneLost(Run(lab, subs, moves), subs) <==> LastCovers(x, subs, stages, moves)
  {
    LastScriptLosesIff(x, lab, subs, stages, moves[0]);
    FinishedStays(Step(lab, subs, moves[0]), subs, moves[1..]);
  }

  lemma StepGoesOn(x: Island, lab: Lab, subs: seq<Subscriber>, stages: seq<Stage>, m: Move)
    requires Compatible(x.rows, subs) && Invariant(x, lab, subs) && Tracks(x, lab, subs, stages)
    ensures Invariant(x, Step(lab, subs, m), subs) && Tracks(x, Step(lab, subs, m), subs, Advance(stages, m.rig))
  {
    StepTracks(x, lab, subs, stages, m);
    StepKeeps(x, lab, subs, m);
  }

  /** A complete run leaves every rig done, in a state the invariant describes. */
  lemma CompleteRun(x: Island, subs: seq<Subscriber>, moves: seq<Move>)
    requires Healthy(x) && Compatible(x.rows, subs) && Completes(|subs|, moves)
    ensures var end := Run(Begin(x, subs), subs, moves); AllDone(end) && Invariant(x, end, subs)
  {
    BeginInvariant(x, subs);
    TracksBegin(x, subs);
    RunKeeps(x, Begin(x, subs), subs, moves);
    RunTracks(x, Begin(x, subs), subs, Unstarted(|subs|), moves);
    DoneIffFinished(x, Run(Begin(x, subs), subs, moves), subs, AdvanceAll(Unstarted(|subs|), moves));
  }

  /** Every rig goes through its three moves, and the last script is over a listing that covers all of them. */
  predicate Orderly(x: Island, subs: seq<Subscriber>, moves: seq<Move>) {
    Completes(|subs|, moves) && LastCovers(x, subs, Unstarted(|subs|), moves)
  }

  /** After any complete interleaving the lab has settled exactly when the last script was over a listing that covers
      every rig. */
  lemma RigsSettleIff(x: Island, subs: seq<Subscriber>, moves: seq<Move>)
    requires Healthy(x) && Compatible(x.rows, subs) && subs != [] && Completes(|subs|, moves)
    ensures Settles(x, subs, Run(Begin(x, subs), subs, moves).island) <==> Orderly(x, subs, moves)
  {
    var lab, stages := Begin(x, subs), Unstarted(|subs|);
    CompleteRun(x, subs, moves);
    SettledIffNoneLost(x, Run(lab, subs, moves), subs);
    BeginInvariant(x, subs);
    TracksBegin(x, subs);
    assert stages[0] == NotYet;
    LastLosesIff(x, lab, subs, stages, moves);
  }

  lemma RowsAgree(x: Island, y: Island, z: Island, subs: seq<Subscriber>, imsi: string)
    requires Compatible(x.rows, subs) && DistinctImsis(x.rows) && Settles(x, subs, y) && Settles(x, subs, z)
    ensures RowOf(y.rows, imsi).Some? <==> RowOf(z.rows, imsi).Some?
    ensures RowOf(y.rows, imsi).Some? ==> SameRow(RowOf(y.rows, imsi).value, RowOf(z.rows, imsi).value)
  {
    RowOfMember(x.rows, imsi);
    RowOfMember(y.rows, imsi);
    RowOfMember(z.rows, imsi);
    if RowOf(y.rows, imsi).Some? {
      var s := RowOf(y.rows, imsi).value;
      assert HasRow(z.rows, imsi);
    }
    if RowOf(z.rows, imsi).Some? {
      var s := RowOf(z.rows, imsi).value;
      assert HasRow(y.rows, imsi);
    }
  }

  /** The same subscribers, up to when each was created. */
  predicate SameRows(rows: seq<Subscriber>, others: seq<Subscriber>, imsi: string) {
    match RowOf(rows, imsi)
    case None => RowOf(others, imsi).None?
    case Some(s) => RowOf(others, imsi).Some? && SameRow(s, RowOf(others, imsi).value)
  }

  /** The same document as far as a sync can tell. */
  predicate SameDocs(docs: seq<Value>, others: seq<Value>, imsi: string) {
    match Find(docs, imsi)
    case None => Find(others, imsi).None?
    case Some(d) => Find(others, imsi).Some? && Canon(d) == Canon(Find(others, imsi).value)
  }

  lemma HeldInBoth(y: Island, z: Island, imsi: string)
    requires Healthy(y) && Healthy(z) && MarkedOnly(y.docs) == MarkedOnly(z.docs) && Held(y.docs, imsi)
    ensures Find(z.docs, imsi) == Find(y.docs, imsi)
  {
    FindMember(y.docs, imsi);
    MarkedOnlyMembers(y.docs);
    MarkedOnlyMembers(z.docs);
    OneMeansFound(z.docs, Find(y.docs, imsi).value, imsi);
  }

  lemma MirroredEntry(docs: seq<Value>, entries: seq<Entry>, d: Value, imsi: string) returns (i: nat)
    requires InSync(docs, entries) && OnePerImsi(docs) && d in docs && !Marked(d) && HasImsi(d, imsi)
    ensures i < |entries| && entries[i].imsi == imsi && Agrees(d, entries[i].doc)
  {
    MirrorsStore(docs, entries, d);
    var e :| e in entries && HasImsi(d, e.imsi) && Agrees(d, e.doc);
    i :| 0 <= i < |entries| && entries[i] == e;
  }

  /** In a mirrored collection an IMSI no roamer holds has a document exactly when the store has it. */
  lemma MirrorFinds(y: Island, imsi: string)
    requires Healthy(y) && Mirrors(y.docs, ListAll(y.rows)) && !Held(y.docs, imsi)
    ensures Find(y.docs, imsi).Some? <==> RowOf(y.rows, imsi).Some?
    ensures Find(y.docs, imsi).Some? ==> Valid(Find(y.docs, imsi).value)
    ensures Find(y.docs, imsi).Some? ==>
      Agrees(Find(y.docs, imsi).value, DocOf(RowOf(y.rows, imsi).value, Ids("", "", "")))
  {
    var subs := ListAll(y.rows);
    ListAllRows(y.rows);
    RowOfMember(y.rows, imsi);
    FindMember(y.docs, imsi);
    if RowOf(y.rows, imsi).Some? { MirroredFinds(y.docs, subs, RowOf(y.rows, imsi).value); }
    if Find(y.docs, imsi).Some? {
      var i := MirroredEntry(y.docs, EntriesOf(subs, []), Find(y.docs, imsi).value, imsi);
      assert subs[i] in y.rows;
    }
  }

  lemma DocsAgree(x: Island, y: Island, z: Island, subs: seq<Subscriber>, imsi: string)
    requires Compatible(x.rows, subs) && DistinctImsis(x.rows) && Settles(x, subs, y) && Settles(x, subs, z)
    ensures SameDocs(y.docs, z.docs, imsi)
  {
    if Held(y.docs, imsi) {
      HeldInBoth(y, z, imsi);
    } else if Held(z.docs, imsi) {
      HeldInBoth(z, y, imsi);
    } else {
      RowsAgree(x, y, z, subs, imsi);
      MirrorFinds(y, imsi);
      MirrorFinds(z, imsi);
      if RowOf(y.rows, imsi).Some? {
        var s, t, ids := RowOf(y.rows, imsi).value, RowOf(z.rows, imsi).value, Ids("", "", "");
        var d, e := Find(y.docs, imsi).value, Find(z.docs, imsi).value;
        DocValid(s, ids);
        DocValid(t, ids);
        DocsAgreeIff(s, t, ids, ids);
        CanonEqualIffAgrees(d, DocOf(s, ids));
        CanonEqualIffAgrees(DocOf(s, ids), DocOf(t, ids));
        CanonEqualIffAgrees(e, DocOf(t, ids));
      }
    }
  }

  /** The same store up to creation times, and the same collection up to ignored fields. */
  ghost predicate SameLab(y: Island, z: Island) {
    forall imsi :: SameRows(y.rows, z.rows, imsi) && SameDocs(y.docs, z.docs, imsi)
  }

  lemma SettledAlike(x: Island, y: Island, z: Island, subs: seq<Subscriber>)
    requires Compatible(x.rows, subs) && DistinctImsis(x.rows) && Settles(x, subs, y) && Settles(x, subs, z)
    ensures SameLab(y, z)
  {
    forall imsi ensures SameRows(y.rows, z.rows, imsi) && SameDocs(y.docs, z.docs, imsi) {
      RowsAgree(x, y, z, subs, imsi);
      DocsAgree(x, y, z, subs, imsi);
    }
  }

  /** Two orderly interleavings of the same rigs end in the same store and the same collection. */
  lemma RigsConverge(x: Island, subs: seq<Subscriber>, moves: seq<Move>, others: seq<Move>)
    requires Healthy(x) && Compatible(x.rows, subs) && subs != []
    requires Orderly(x, subs, moves) && Orderly(x, subs, others)
    ensures SameLab(Run(Begin(x, subs), subs, moves).island, Run(Begin(x, subs), subs, others).island)
  {
    RigsSettleIff(x, subs, moves);
    RigsSettleIff(x, subs, others);
    SettledAlike(x, Run(Begin(x, subs), subs, moves).island, Run(Begin(x, subs), subs, others).island, subs);
  }

  lemma {:induction false} NeverLostAtEnd(lab: Lab, subs: seq<Subscriber>, moves: seq<Move>)
    requires |subs| == |lab.phases| && NeverLost(lab, subs, moves)
    ensures NoneLost(Run(lab, subs, moves), subs)
    decreases moves
  {
    if moves != [] {
      NeverLostAtEnd(Step(lab, subs, moves[0]), subs, moves[1..]);
    }
  }

  /** A complete interleaving of undivided syncs is orderly. */
  lemma UndividedIsOrderly(x: Island, subs: seq<Subscriber>, moves: seq<Move>)
    requires Healthy(x) && Compatible(x.rows, subs) && subs != [] && Completes(|subs|, moves)
    requires Undivided(Begin(x, subs), subs, moves)
    ensures Orderly(x, subs, moves)
  {
    NoRigIsLost(x, subs, moves);
    NeverLostAtEnd(Begin(x, subs), subs, moves);
    CompleteRun(x, subs, moves);
    SettledIffNoneLost(x, Run(Begin(x, subs), subs, moves), subs);
    RigsSettleIff(x, subs, moves);
  }

  /** Two complete interleavings of the same rigs, each sync listing and running its script at once, end in the same
      store and the same collection. */
  lemma UndividedConverge(x: Island, subs: seq<Subscriber>, moves: seq<Move>, others: seq<Move>)
    requires Healthy(x) && Compatible(x.rows, subs) && subs != []
    requires Completes(|subs|, moves) && Undivided(Begin(x, subs), subs, moves)
    requires Completes(|subs|, others) && Undivided(Begin(x, subs), subs, others)
    ensures SameLab(Run(Begin(x, subs), subs, moves).island, Run(Begin(x, subs), subs, others).island)
  {
    UndividedIsOrderly(x, subs, moves);
    UndividedIsOrderly(x, subs, others);
    RigsConverge(x, subs, moves, others);
  }
}
