/** Many islands, each with a store and a collection, under any interleaving of what their operators and
    cores do. */
module Islands {
  import opened Results
  import opened Json
  import opened Canonical
  import opened Subscribers
  import opened Collections
  import opened Sync
  import opened SyncLaws
  import opened LiveSessions
  import opened Store
  import opened Roaming
  import opened RoamingLaws

  datatype Island = Island(rows: seq<Subscriber>, docs: seq<Value>)

  /** A `db sync` lists the store and then runs its script; other actions may come between, so a script may be over
      an earlier listing. */
  datatype Action =
    | StoreAction(op: Op)
    | ScriptAction(listed: seq<Subscriber>, ids: seq<Ids>)
    | ImportAction(file: Tree, home: Plmn, newIds: seq<Ids>)
    | RoamingRemove(imsi: string)
    | CoreAction(target: string, write: CoreWrite)

  predicate IsAction(a: Action) {
    match a
    case StoreAction(op) => IsOp(op)
    case ScriptAction(listed, _) => DistinctImsis(listed)
    case CoreAction(_, w) => IsCoreWrite(w)
    case _ => true
  }

  function Act(x: Island, a: Action): Island {
    match a
    case StoreAction(op) => x.(rows := RowsAfter(x.rows, op))
    case ScriptAction(listed, ids) => x.(docs := DocsAfter(x.docs, listed, ids))
    case ImportAction(file, home, ids) =>
      (match ReadImportFile(file)
       case Ok(rs) => x.(docs := DocsAfterImport(x.docs, rs, home, ids))
       case Err(_) => x)
    case RoamingRemove(imsi) => x.(docs := DropRoamer(x.docs, imsi))
    case CoreAction(imsi, w) => x.(docs := Touched(x.docs, imsi, w))
  }

  /** What every reachable island satisfies. */
  ghost predicate Healthy(x: Island) {
    && Sound(x.docs) && OnePerImsi(x.docs) && NoSecrets(x.docs)
    && DistinctImsis(x.rows) && AllValid(x.rows)
  }

  /** Who may touch what: a sync, over whatever listing, no roamer's document, an import or its removal no local
      one, a store operation no document at all, and the core only what a sync does not see. */
  predicate Respects(x: Island, a: Action, y: Island) {
    match a
    case StoreAction(_) => y.docs == x.docs
    case ScriptAction(_, _) => y.rows == x.rows && MarkedOnly(y.docs) == MarkedOnly(x.docs)
    case ImportAction(_, _, _) => y.rows == x.rows && UnmarkedOnly(y.docs) == UnmarkedOnly(x.docs)
    case RoamingRemove(_) => y.rows == x.rows && UnmarkedOnly(y.docs) == UnmarkedOnly(x.docs)
    case CoreAction(_, _) =>
      && y.rows == x.rows && |y.docs| == |x.docs|
      && forall i | 0 <= i < |x.docs| :: Canon(y.docs[i]) == Canon(x.docs[i])
  }

  // ----- one action -----

  lemma {:induction false} MarkedOnlyMembers(docs: seq<Value>)
    ensures forall d :: d in MarkedOnly(docs) <==> d in docs && Marked(d)
  {
    if docs != [] {
      MarkedOnlyMembers(docs[1..]);
      assert docs == [docs[0]] + docs[1..];
    }
  }

  lemma ScriptHealthy(x: Island, listed: seq<Subscriber>, ids: seq<Ids>)
    requires Healthy(x) && DistinctImsis(listed)
    ensures var a := ScriptAction(listed, ids); Healthy(Act(x, a)) && Respects(x, a, Act(x, a))
  {
    if Runnable(listed) {
      var entries := EntriesOf(listed, ids);
      EntriesWanted(listed, ids);
      SyncSettles(x.docs, entries);
      SyncAccounts(x.docs, entries);
      MarkedOnlyMembers(x.docs);
      MarkedOnlyMembers(Synced(x.docs, entries));
    }
  }

  lemma CoreWriteKeepsSecrets(d: Value, w: CoreWrite)
    requires IsCoreWrite(w) && Lookup(d, "security") == None
    ensures Lookup(CoreWritten(d, w), "security") == None
  {
    if w.Runtime? && d.Doc? { GetPut(d.fields, w.key, w.val, "security"); }
  }

  lemma CoreHealthy(x: Island, imsi: string, w: CoreWrite)
    requires Healthy(x) && IsCoreWrite(w)
    ensures Healthy(Act(x, CoreAction(imsi, w))) && Respects(x, CoreAction(imsi, w), Act(x, CoreAction(imsi, w)))
  {
    var after := Touched(x.docs, imsi, w);
    TouchedSound(x.docs, imsi, w);
    TouchedOnePerImsi(x.docs, imsi, w);
    TouchedMembers(x.docs, imsi, w);
    forall i | 0 <= i < |x.docs|
      ensures Canon(after[i]) == Canon(x.docs[i])
      ensures Marked(after[i]) ==> Lookup(after[i], "security") == None
    {
      assert x.docs[i] in x.docs && after[i] in after;
      CoreWriteAgrees(x.docs[i], w);
      if after[i] != x.docs[i] { CanonEqualIffAgrees(after[i], x.docs[i]); }
      CoreWriteLookup(x.docs[i], w, "resccom_inbound_roamer");
      if Marked(x.docs[i]) { CoreWriteKeepsSecrets(x.docs[i], w); }
    }
  }

  lemma ActHealthy(x: Island, a: Action)
    requires Healthy(x) && IsAction(a)
    ensures Healthy(Act(x, a)) && Respects(x, a, Act(x, a))
  {
    match a {
      case StoreAction(op) => ApplyKeeps(x.rows, op);
      case ScriptAction(listed, ids) => ScriptHealthy(x, listed, ids);
      case ImportAction(file, home, ids) =>
        if ReadImportFile(file).Ok? { ImportTouchesRoamersOnly(x.docs, ReadImportFile(file).value, home, ids); }
      case RoamingRemove(imsi) => DropRoamerKeeps(x.docs, imsi);
      case CoreAction(imsi, w) => CoreHealthy(x, imsi, w);
    }
  }

  // ----- any run over any number of islands -----

  /** The island acting and what it does.  An export leaves its own island as it is, and what it hands over
      is the `file` of some later import, which may be any file at all. */
  datatype Turn = Turn(island: nat, action: Action)

  function Next(world: seq<Island>, t: Turn): seq<Island> {
    if t.island < |world| then world[t.island := Act(world[t.island], t.action)] else world
  }

  function Run(world: seq<Island>, turns: seq<Turn>): seq<Island>
    decreases turns
  {
    if turns == [] then world else Run(Next(world, turns[0]), turns[1..])
  }

  ghost predicate AllHealthy(world: seq<Island>) { forall x | x in world :: Healthy(x) }

  /** Every turn keeps to its own island and to what its action may touch there. */
  predicate AllRespect(world: seq<Island>, turns: seq<Turn>)
    decreases turns
  {
    turns == [] || (
      && |Next(world, turns[0])| == |world|
      && (forall i | 0 <= i < |world| ::
        if i == turns[0].island then Respects(world[i], turns[0].action, Next(world, turns[0])[i])
        else Next(world, turns[0])[i] == world[i])
      && AllRespect(Next(world, turns[0]), turns[1..]))
  }

  /** In every state any interleaving can reach: one document per IMSI, no credential under a roamer's mark,
      a store keyed by IMSI that lists without error; and no step ever touched what was not its own. */
  lemma {:induction false} RunsStayHealthy(world: seq<Island>, turns: seq<Turn>)
    requires AllHealthy(world) && forall t | t in turns :: IsAction(t.action)
    ensures AllHealthy(Run(world, turns)) && AllRespect(world, turns)
    decreases turns
  {
    if turns != [] {
      var t, next := turns[0], Next(world, turns[0]);
      assert t in turns && forall u | u in turns[1..] :: u in turns;
      if t.island < |world| {
        assert world[t.island] in world;
        ActHealthy(world[t.island], t.action);
      }
      forall x | x in next ensures Healthy(x) {
        var i :| 0 <= i < |next| && next[i] == x;
        if i != t.island { assert world[i] in world; }
      }
      RunsStayHealthy(next, turns[1..]);
    }
  }

  /** From any such state, a sync over the store as it is ends with the collection mirroring that store. */
  lemma ReachableSyncMirrors(world: seq<Island>, turns: seq<Turn>, i: nat, ids: seq<Ids>)
    requires AllHealthy(world) && (forall t | t in turns :: IsAction(t.action)) && i < |Run(world, turns)|
    requires Runnable(ListAll(Run(world, turns)[i].rows))
    ensures var x := Run(world, turns)[i];
      Mirrors(Act(x, ScriptAction(ListAll(x.rows), ids)).docs, ListAll(x.rows))
  {
    RunsStayHealthy(world, turns);
    var x := Run(world, turns)[i];
    assert x in Run(world, turns);
    ListAllRows(x.rows);
    SyncMirrors(x.docs, ListAll(x.rows), ids);
  }
}
