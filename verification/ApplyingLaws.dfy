/** What a run of apply writes and restarts, that it agrees with the console, and what holds over any number of
    runs. */
module ApplyingLaws {
  import opened Results
  import opened Json
  import opened Signing
  import opened Plans
  import opened Drafts
  import opened Applying

  // ----- restarts -----

  predicate Consumes(paths: seq<string>, c: string) { exists i | 0 <= i < |paths| :: ContainerOf(paths[i]) == Some(c) }

  predicate NoRepeats(s: seq<string>) { forall i, j | 0 <= i < j < |s| :: s[i] != s[j] }

  lemma ConsumesLast(paths: seq<string>, c: string)
    requires paths != []
    ensures Consumes(paths, c) <==> Consumes(paths[..|paths| - 1], c) || ContainerOf(paths[|paths| - 1]) == Some(c)
  {
    var front := paths[..|paths| - 1];
    if Consumes(front, c) {
      var i :| 0 <= i < |front| && ContainerOf(front[i]) == Some(c);
      assert ContainerOf(paths[i]) == Some(c);
    }
    if Consumes(paths, c) {
      var i :| 0 <= i < |paths| && ContainerOf(paths[i]) == Some(c);
      assert i < |front| ==> front[i] == paths[i];
    }
  }

  /** No container is restarted twice, and only consumers of changed files are. Without a failure those are all
      of them; the run fails exactly when one of them would not restart. */
  lemma {:induction false} RestartsExact(docker: string -> bool, paths: seq<string>)
    ensures NoRepeats(RestartAll(docker, paths).done)
    ensures forall c | c in RestartAll(docker, paths).done :: Consumes(paths, c) && docker(c)
    ensures RestartAll(docker, paths).failed.None? <==> forall c | Consumes(paths, c) :: docker(c)
    ensures RestartAll(docker, paths).failed.None? ==>
              forall c :: Consumes(paths, c) <==> c in RestartAll(docker, paths).done
    ensures RestartAll(docker, paths).failed.Some? ==>
              var c := RestartAll(docker, paths).failed.value;
              Consumes(paths, c) && !docker(c) && c !in RestartAll(docker, paths).done
  {
    if paths != [] {
      RestartsExact(docker, paths[..|paths| - 1]);
      forall c ensures Consumes(paths, c) <==>
          Consumes(paths[..|paths| - 1], c) || ContainerOf(paths[|paths| - 1]) == Some(c) {
        ConsumesLast(paths, c);
      }
    }
  }

  /** `done` is every container due before `k`. */
  ghost predicate RestartedBefore(docker: string -> bool, paths: seq<string>, k: nat, done: seq<string>)
    requires k <= |paths|
  {
    forall c :: Consumes(paths[..k], c) <==> c in done
  }

  /** A run that fails has restarted every container due before the one it failed at, and none after. */
  lemma {:induction false} RestartsStop(docker: string -> bool, paths: seq<string>)
    requires RestartAll(docker, paths).failed.Some?
    ensures
      var r := RestartAll(docker, paths);
      exists k | 0 <= k < |paths| :: ContainerOf(paths[k]) == r.failed && RestartedBefore(docker, paths, k, r.done)
  {
    var last := |paths| - 1;
    var front := paths[..last];
    var before, r := RestartAll(docker, front), RestartAll(docker, paths);
    RestartsExact(docker, front);
    if before.failed.Some? {
      RestartsStop(docker, front);
      var k :| 0 <= k < |front| && ContainerOf(front[k]) == before.failed
        && RestartedBefore(docker, front, k, before.done);
      assert front[..k] == paths[..k];
      assert ContainerOf(paths[k]) == r.failed && RestartedBefore(docker, paths, k, r.done);
    } else {
      assert ContainerOf(paths[last]) == r.failed && RestartedBefore(docker, paths, last, r.done);
    }
  }

  // ----- writing -----

  function Lookup(targets: map<string, string>, p: string): Option<string> {
    if p in targets then Some(targets[p]) else None
  }

  predicate Lists(files: seq<RenderedFile>, p: string) { exists i | 0 <= i < |files| :: files[i].path == p }

  /** The files are what `text` gives for their paths, beside what `before` had. */
  ghost predicate Describes(files: seq<RenderedFile>, text: string -> string, before: map<string, string>) {
    forall i | 0 <= i < |files| ::
      files[i].content == text(files[i].path) && files[i].existing == Lookup(before, files[i].path)
  }

  ghost predicate PartWritten(now: map<string, string>, text: string -> string, before: map<string, string>) {
    forall p :: Lookup(now, p) == Lookup(before, p) || Lookup(now, p) == Some(text(p))
  }

  lemma {:induction false} WrittenAt(files: seq<RenderedFile>, text: string -> string, before: map<string, string>,
      now: map<string, string>, p: string)
    requires Describes(files, text, before) && PartWritten(now, text, before)
    ensures Lookup(Written(files, now), p) == if Lists(files, p) then Some(text(p)) else Lookup(now, p)
  {
    if files != [] {
      var f := files[0];
      var next := if Changed(f) then now[f.path := f.content] else now;
      assert f.content == text(f.path);
      WrittenAt(files[1..], text, before, next, p);
      if Lists(files, p) && f.path != p {
        var i :| 0 <= i < |files| && files[i].path == p;
        assert files[1..][i - 1].path == p;
      }
    }
  }

  predicate ListsChanged(files: seq<RenderedFile>, p: string) {
    exists i | 0 <= i < |files| :: files[i].path == p && Changed(files[i])
  }

  lemma {:induction false} ChangedAt(files: seq<RenderedFile>, p: string)
    ensures p in PathsOf(ChangedFiles(files)) <==> ListsChanged(files, p)
  {
    if files != [] {
      ChangedAt(files[1..], p);
      assert files == [files[0]] + files[1..];
      var head := if Changed(files[0]) then [files[0]] else [];
      assert PathsOf(ChangedFiles(files)) == PathsOf(head) + PathsOf(ChangedFiles(files[1..]));
      assert Changed(files[0]) ==> PathsOf(head) == [files[0].path];
      if ListsChanged(files[1..], p) {
        var i :| 0 <= i < |files[1..]| && files[1..][i].path == p && Changed(files[1..][i]);
        assert files[i + 1] == files[1..][i];
      }
      if ListsChanged(files, p) {
        var i :| 0 <= i < |files| && files[i].path == p && Changed(files[i]);
        assert i > 0 ==> files[1..][i - 1] == files[i];
      }
    }
  }

  lemma ChangedHead(f: RenderedFile, rest: seq<RenderedFile>)
    ensures ChangedFiles([f] + rest) == (if Changed(f) then [f] else []) + ChangedFiles(rest)
  {
    assert ([f] + rest)[1..] == rest;
  }

  lemma Regroup<T>(a: seq<T>, b: seq<T>, c: seq<T>)
    ensures a + (b + c) == (a + b) + c
  {
  }

  /** Changed files are listed in the order they are rendered in. */
  lemma {:induction false} ChangedInOrder(front: seq<RenderedFile>, back: seq<RenderedFile>)
    ensures ChangedFiles(front + back) == ChangedFiles(front) + ChangedFiles(back)
  {
    if front == [] {
      assert front + back == back;
    } else {
      var f, rest := front[0], front[1..];
      ChangedInOrder(rest, back);
      assert front == [f] + rest;
      Regroup([f], rest, back);
      ChangedHead(f, rest + back);
      Regroup(if Changed(f) then [f] else [], ChangedFiles(rest), ChangedFiles(back));
    }
  }

  /** Every target has the content rendered from `doc`. */
  ghost predicate RendersTo(tools: Tools, doc: Tree, targets: map<string, string>)
    requires doc.Obj?
  {
    forall p | p in TARGETS :: Lookup(targets, p) == Some(tools.content(Unsigned(doc), p))
  }

  lemma FilesDescribe(tools: Tools, doc: Tree, targets: map<string, string>)
    requires doc.Obj?
    ensures Describes(RenderedFiles(tools, doc, targets), p => tools.content(Unsigned(doc), p), targets)
    ensures forall p :: Lists(RenderedFiles(tools, doc, targets), p) <==> p in TARGETS
  {
    var files := RenderedFiles(tools, doc, targets);
    forall p | p in TARGETS ensures Lists(files, p) {
      var i :| 0 <= i < |TARGETS| && TARGETS[i] == p;
      assert files[i].path == p;
    }
  }

  /** The write leaves every target as rendered and every other file alone, and reports exactly the targets that
      were missing or different. */
  lemma WriteExact(tools: Tools, doc: Tree, targets: map<string, string>)
    requires doc.Obj?
    ensures
      var after := Written(RenderedFiles(tools, doc, targets), targets);
      && RendersTo(tools, doc, after)
      && (forall p | p !in TARGETS :: Lookup(after, p) == Lookup(targets, p))
    ensures
      forall p :: p in PathsOf(ChangedFiles(RenderedFiles(tools, doc, targets))) <==>
        p in TARGETS && Lookup(targets, p) != Some(tools.content(Unsigned(doc), p))
  {
    var files := RenderedFiles(tools, doc, targets);
    var text := p => tools.content(Unsigned(doc), p);
    FilesDescribe(tools, doc, targets);
    forall p ensures Lookup(Written(files, targets), p) == if p in TARGETS then Some(text(p)) else Lookup(targets, p) {
      WrittenAt(files, text, targets, targets, p);
    }
    forall p ensures p in PathsOf(ChangedFiles(files)) <==> p in TARGETS && Lookup(targets, p) != Some(text(p)) {
      ChangedAt(files, p);
      if p in TARGETS {
        assert Lists(files, p);
        var i :| 0 <= i < |files| && files[i].path == p;
        assert Changed(files[i]) <==> Lookup(targets, p) != Some(text(p));
      }
    }
  }

  lemma HasPath(files: seq<RenderedFile>)
    requires files != []
    ensures files[0].path in PathsOf(files)
  {
    assert PathsOf(files)[0] == files[0].path;
  }

  /** Rendering what is already there writes nothing. */
  lemma NothingToWrite(tools: Tools, doc: Tree, targets: map<string, string>)
    requires doc.Obj? && RendersTo(tools, doc, targets)
    ensures ChangedFiles(RenderedFiles(tools, doc, targets)) == []
    ensures Written(RenderedFiles(tools, doc, targets), targets) == targets
  {
    var files := RenderedFiles(tools, doc, targets);
    WriteExact(tools, doc, targets);
    var changed := ChangedFiles(files);
    if changed != [] {
      HasPath(changed);
    }
    NoneWritten(files, targets);
  }

  lemma {:induction false} NoneWritten(files: seq<RenderedFile>, targets: map<string, string>)
    requires ChangedFiles(files) == []
    ensures Written(files, targets) == targets
  {
    if files != [] {
      NoneWritten(files[1..], targets);
    }
  }

  // ----- a run -----

  /** The key file of the island holds the private half of the key it declares. */
  ghost predicate MatchingKey(tools: Tools, l: Locked, keys: map<string, string>) {
    && Lawful(tools.checks.ed) && l.id.Str? && l.id.s in keys && tools.parseKey(keys[l.id.s]).Some?
    && l.publicKey == Str(tools.checks.ed.publicOf(tools.parseKey(keys[l.id.s]).value))
  }

  /** What every island file that apply wrote is like. */
  ghost predicate InOrder(tools: Tools, l: Locked, d: Disk) {
    && d.island.Some? && d.island.value.Obj? && Identity(d.island.value) == Some(l)
    && !IsProduction(d.island.value) && Sound(tools.checks, Unsigned(d.island.value))
    && RendersTo(tools, d.island.value, d.targets)
    && (MatchingKey(tools, l, d.keys) ==> VerifyDocument(tools.checks.ed, d.island.value) == Verified)
  }

  lemma VettedIsStaged(tools: Tools, current: Tree, posted: Tree)
    requires Vet(tools, current, posted).Ok?
    ensures Identity(current).Some? && Staged(Identity(current).value, Vet(tools, current, posted).value)
    ensures !IsProduction(Vet(tools, current, posted).value) && Sound(tools.checks, Vet(tools, current, posted).value)
  {
    RelockStages(Identity(current).value, posted);
    UnsignedPassesIff(tools.checks, Vet(tools, current, posted).value);
  }

  /** The console and the host let a candidate through exactly when it is not a production one and is sound: it has
      the right shape, no two of its cells have the same PCI and its prefixes are disjoint. */
  lemma VetPassesIff(tools: Tools, current: Tree, posted: Tree)
    ensures
      var built := BuildCandidate(current, posted);
      Vet(tools, current, posted).Ok? <==> built.Some? && !IsProduction(built.value) && Sound(tools.checks, built.value)
    ensures Vet(tools, current, posted).Ok? ==>
              BuildCandidate(current, posted) == Some(Vet(tools, current, posted).value)
  {
    var built := BuildCandidate(current, posted);
    if built.Some? {
      RelockStages(Identity(current).value, posted);
      UnsignedPassesIff(tools.checks, built.value);
    }
  }

  /** Every cell whose PCI an earlier one has, and the services prefix if it overlaps. */
  ghost predicate ListsPlanIssues(c: Tree, issues: seq<string>) {
    forall f :: f in issues <==>
      || (exists p :: RepeatsPci(c, p) && f == PciField(p))
      || (f == "allocations.services_prefix" && !DisjointPrefixes(c))
  }

  lemma PlanIssuesListed(checks: Checks, c: Tree)
    requires c.Obj? && Get(c.fields, "signature").None? && !IsProduction(c)
    requires checks.schema(c) == [] && Readable(c)
    ensures Validate(checks, c).Some? && ListsPlanIssues(c, Validate(checks, c).value)
    ensures Validate(checks, c).value == [] <==> DistinctPcis(c) && DisjointPrefixes(c)
  {
    UnsignedPassesIff(checks, c);
    PlanCleanIff(c);
    forall f {
      ValidateReports(checks, c, f);
    }
  }

  /** A candidate of the right shape with an unsound plan is refused with exactly what is wrong with the plan; one of
      the wrong shape with what the schema says. */
  lemma VetReports(tools: Tools, current: Tree, posted: Tree, c: Tree)
    requires BuildCandidate(current, posted) == Some(c)
    ensures tools.checks.schema(c) != [] ==> Vet(tools, current, posted) == Err(Invalid(tools.checks.schema(c)))
    ensures
      tools.checks.schema(c) == [] && !IsProduction(c) && Readable(c) && !(DistinctPcis(c) && DisjointPrefixes(c)) ==>
        RefusedForPlan(Vet(tools, current, posted), c)
  {
    RelockStages(Identity(current).value, posted);
    if tools.checks.schema(c) != [] {
      ValidatesIff(tools.checks, c);
    } else if !IsProduction(c) && Readable(c) {
      PlanIssuesListed(tools.checks, c);
    }
    VetIsValidated(tools, current, posted, c, Validate(tools.checks, c));
  }

  ghost predicate RefusedForPlan(r: Result<Tree, Outcome>, c: Tree) {
    r.Err? && r.error.Invalid? && ListsPlanIssues(c, r.error.issues)
  }

  lemma VetIsValidated(tools: Tools, current: Tree, posted: Tree, c: Tree, report: Report)
    requires BuildCandidate(current, posted) == Some(c) && Validate(tools.checks, c) == report
    ensures report.Some? && report.value != [] ==> Vet(tools, current, posted) == Err(Invalid(report.value))
  {
  }

  /** Signing a staged document leaves the document, its identity and its profile as they are. */
  lemma SignedIsStaged(ed: Ed25519, l: Locked, c: Tree, pair: Keypair)
    requires Staged(l, c)
    ensures
      var signed := WithSignature(ed, c, pair);
      Unsigned(signed) == c && Identity(signed) == Some(l) && (IsProduction(signed) <==> IsProduction(c))
  {
    var block := SignDocument(ed, c, pair);
    StagedIdentity(l, c, block);
    WithoutPut(c.fields, "signature", block);
    WithoutSame(c.fields, "signature");
    GetPut(c.fields, "signature", block, "profile");
  }

  /** What is ready to write: the vetted draft under a signature by the island's key. */
  lemma Prepared(tools: Tools, d: Disk)
    requires Prepare(tools, d).Ok?
    ensures
      var signed := Prepare(tools, d).value;
      var l := Identity(d.island.value);
      && l.Some? && signed.Obj? && Identity(signed) == l && !IsProduction(signed)
      && Sound(tools.checks, Unsigned(signed))
      && Vet(tools, d.island.value, d.draft.value) == Ok(Unsigned(signed))
      && (MatchingKey(tools, l.value, d.keys) ==> VerifyDocument(tools.checks.ed, signed) == Verified)
  {
    var current := d.island.value;
    VettedIsStaged(tools, current, d.draft.value);
    var l := Identity(current).value;
    var c := Vet(tools, current, d.draft.value).value;
    var pair := LoadSigningKeypair(tools, current, d.keys).value;
    SignedIsStaged(tools.checks.ed, l, c, pair);
    if MatchingKey(tools, l, d.keys) {
      SignThenVerify(tools.checks.ed, c, pair);
    }
  }

  /** A run that ends before the first write leaves the whole disk alone; any other puts the island file and
      every target in order under the old identity and leaves all other files, and the draft is gone exactly when
      the run succeeded. */
  lemma ApplyIsTransactional(tools: Tools, docker: string -> bool, d: Disk)
    ensures
      var (after, outcome) := Apply(tools, docker, d);
      && ((outcome.Applied? || outcome.RestartFailed?) <==> Prepare(tools, d).Ok?)
      && (!outcome.Applied? && !outcome.RestartFailed? ==> after == d)
      && after.keys == d.keys
    ensures
      var (after, outcome) := Apply(tools, docker, d);
      outcome.Applied? || outcome.RestartFailed? ==>
        && Identity(d.island.value).Some? && InOrder(tools, Identity(d.island.value).value, after)
        && Vet(tools, d.island.value, d.draft.value) == Ok(Unsigned(after.island.value))
        && (forall p | p !in TARGETS :: Lookup(after.targets, p) == Lookup(d.targets, p))
        && after.draft == (if outcome.Applied? then None else d.draft)
  {
    if Prepare(tools, d).Ok? {
      Prepared(tools, d);
      CommitPutsInOrder(tools, docker, d, Prepare(tools, d).value, Identity(d.island.value).value);
    }
  }

  lemma CommitPutsInOrder(tools: Tools, docker: string -> bool, d: Disk, signed: Tree, l: Locked)
    requires signed.Obj? && Identity(signed) == Some(l) && !IsProduction(signed)
    requires Sound(tools.checks, Unsigned(signed))
    requires MatchingKey(tools, l, d.keys) ==> VerifyDocument(tools.checks.ed, signed) == Verified
    ensures
      var (after, outcome) := Commit(tools, docker, d, signed);
      && (outcome.Applied? || outcome.RestartFailed?) && after.keys == d.keys && after.island == Some(signed)
      && InOrder(tools, l, after) && (forall p | p !in TARGETS :: Lookup(after.targets, p) == Lookup(d.targets, p))
      && after.draft == (if outcome.Applied? then None else d.draft)
  {
    WriteExact(tools, signed, d.targets);
  }

  /** A target that was missing or different from its rendering of `doc`. */
  predicate Stale(tools: Tools, doc: Tree, targets: map<string, string>, p: string)
    requires doc.Obj?
  {
    p in TARGETS && Lookup(targets, p) != Some(tools.content(Unsigned(doc), p))
  }

  ghost predicate Affected(tools: Tools, doc: Tree, targets: map<string, string>, c: string)
    requires doc.Obj?
  {
    exists p :: Stale(tools, doc, targets, p) && ContainerOf(p) == Some(c)
  }

  lemma AffectedConsume(tools: Tools, doc: Tree, targets: map<string, string>, c: string)
    requires doc.Obj?
    ensures Affected(tools, doc, targets, c) <==> Consumes(PathsOf(ChangedFiles(RenderedFiles(tools, doc, targets))), c)
  {
    var paths := PathsOf(ChangedFiles(RenderedFiles(tools, doc, targets)));
    WriteExact(tools, doc, targets);
    if Affected(tools, doc, targets, c) {
      var p :| Stale(tools, doc, targets, p) && ContainerOf(p) == Some(c);
      assert p in paths;
      var i :| 0 <= i < |paths| && paths[i] == p;
    }
    if Consumes(paths, c) {
      var i :| 0 <= i < |paths| && ContainerOf(paths[i]) == Some(c);
      assert paths[i] in paths;
      assert Stale(tools, doc, targets, paths[i]);
    }
  }

  /** What a run that got to the write restarted: no container twice, none but those whose files changed, and
      all of those exactly when each of them restarts. */
  lemma ApplyRestarts(tools: Tools, docker: string -> bool, d: Disk)
    requires Prepare(tools, d).Ok?
    ensures
      var (after, outcome) := Apply(tools, docker, d);
      var signed := Prepare(tools, d).value;
      && |d.restarted| <= |after.restarted| && after.restarted[..|d.restarted|] == d.restarted
      && var done := after.restarted[|d.restarted|..];
      && NoRepeats(done)
      && (forall c | c in done :: Affected(tools, signed, d.targets, c) && docker(c))
      && (outcome.Applied? <==> forall c | Affected(tools, signed, d.targets, c) :: docker(c))
      && (outcome.Applied? <==> forall c | Affected(tools, signed, d.targets, c) :: c in done)
      && (outcome.Applied? ==> outcome.restarted == done)
      && (outcome.Applied? ==> forall p :: p in outcome.changed <==> Stale(tools, signed, d.targets, p))
  {
    var signed := Prepare(tools, d).value;
    var paths := PathsOf(ChangedFiles(RenderedFiles(tools, signed, d.targets)));
    var r := RestartAll(docker, paths);
    RestartsExact(docker, paths);
    WriteExact(tools, signed, d.targets);
    forall c ensures Affected(tools, signed, d.targets, c) <==> Consumes(paths, c) {
      AffectedConsume(tools, signed, d.targets, c);
    }
    var after := Apply(tools, docker, d).0;
    assert after.restarted == d.restarted + r.done;
    assert after.restarted[|d.restarted|..] == r.done;
  }

  // ----- how a run ends -----

  /** The key file named after the island decodes, and the island declares what a keypair is made of. */
  predicate KeyLoads(tools: Tools, current: Tree, keys: map<string, string>) {
    var island := ValueAt(current, "island");
    var id := ValueAt(island, "id");
    && id.Str? && id.s in keys && tools.parseKey(keys[id.s]).Some?
    && Get(island.fields, "signing_public_key").Some? && Get(island.fields, "signing_key_fingerprint").Some?
  }

  /** A run writes exactly when there is a draft and an island file, and the candidate built from them is no production
      document, is sound, has a key to sign it and renders. */
  lemma PreparesIff(tools: Tools, d: Disk)
    ensures Prepare(tools, d) == Err(NoDraft) <==> d.draft.None?
    ensures Prepare(tools, d) == Err(NoIslandFile) <==> d.draft.Some? && d.island.None?
    ensures Prepare(tools, d).Ok? <==>
            && d.draft.Some? && d.island.Some? && KeyLoads(tools, d.island.value, d.keys)
            && var built := BuildCandidate(d.island.value, d.draft.value);
            && built.Some? && !IsProduction(built.value) && Sound(tools.checks, built.value)
            && tools.rendering(built.value).Renders?
  {
    if d.draft.Some? && d.island.Some? {
      var current := d.island.value;
      VetPassesIff(tools, current, d.draft.value);
      KeyLoadsIff(tools, current, d.keys);
      if Vet(tools, current, d.draft.value).Ok? && KeyLoads(tools, current, d.keys) {
        VettedIsStaged(tools, current, d.draft.value);
        SignedIsStaged(tools.checks.ed, Identity(current).value, Vet(tools, current, d.draft.value).value,
          LoadSigningKeypair(tools, current, d.keys).value);
      }
    }
  }

  lemma KeyLoadsIff(tools: Tools, current: Tree, keys: map<string, string>)
    ensures LoadSigningKeypair(tools, current, keys).Ok? <==> KeyLoads(tools, current, keys)
    ensures LoadSigningKeypair(tools, current, keys) == Err(NoSigningKey) <==>
            var id := ValueAt(ValueAt(current, "island"), "id"); id.Str? && id.s !in keys
    ensures KeyLoads(tools, current, keys) ==>
              var island := ValueAt(current, "island").fields;
              LoadSigningKeypair(tools, current, keys) ==
                Ok(Keypair(tools.parseKey(keys[Get(island, "id").value.s]).value,
                           Get(island, "signing_key_fingerprint").value))
  {
  }

  /** How a run goes on with a candidate `c` that passes: without a key file it says so, and with one it is rendering
      that decides. */
  lemma EndsAfterVetting(tools: Tools, d: Disk, c: Tree)
    requires d.draft.Some? && d.island.Some? && Vet(tools, d.island.value, d.draft.value) == Ok(c)
    ensures
      var id := ValueAt(ValueAt(d.island.value, "island"), "id");
      Prepare(tools, d) == Err(NoSigningKey) <==> id.Str? && id.s !in d.keys
    ensures
      KeyLoads(tools, d.island.value, d.keys) ==>
        match tools.rendering(c)
        case Renders => Prepare(tools, d).Ok? && Unsigned(Prepare(tools, d).value) == c
        case RenderError(text) => Prepare(tools, d) == Err(RenderFailed(text))
        case RenderRaises => Prepare(tools, d) == Err(Outcome.Raised)
  {
    var current := d.island.value;
    KeyLoadsIff(tools, current, d.keys);
    var pair := LoadSigningKeypair(tools, current, d.keys);
    if pair.Ok? {
      VettedIsStaged(tools, current, d.draft.value);
      SignedIsStaged(tools.checks.ed, Identity(current).value, c, pair.value);
    }
  }

  /** A candidate that does not pass, one with a shared PCI or overlapping prefixes for example, is neither staged nor
      applied: both leave the disk as it is. */
  lemma UnsoundGoesNowhere(tools: Tools, docker: string -> bool, d: Disk, posted: Tree)
    requires
      || d.island.None?
      || BuildCandidate(d.island.value, posted).None?
      || IsProduction(BuildCandidate(d.island.value, posted).value)
      || !Sound(tools.checks, BuildCandidate(d.island.value, posted).value)
    ensures SaveDraft(tools, d, posted).0 == d && SaveDraft(tools, d, posted).1.verdict.Err?
    ensures d.draft == Some(posted) ==> Apply(tools, docker, d).0 == d && Early(Apply(tools, docker, d).1)
  {
    if d.island.Some? {
      VetPassesIff(tools, d.island.value, posted);
    }
  }

  /** The consumers of rendered files, container by container. */
  lemma ContainerNames(p: string)
    ensures ContainerOf(p) ==
      match p
      case "stack/core/config/amf.yaml" => Some("core-amf-1")
      case "stack/core/config/mme.yaml" => Some("core-mme-1")
      case "stack/core/config/nrf.yaml" => Some("core-nrf-1")
      case "stack/core/config/smf.yaml" => Some("core-smf-1")
      case "stack/core/config/upf.yaml" => Some("core-upf-1")
      case "stack/core/config/freeDiameter/hss.conf" => Some("core-hss-1")
      case "stack/core/config/freeDiameter/mme.conf" => Some("core-mme-1")
      case "stack/core/config/freeDiameter/pcrf.conf" => Some("core-pcrf-1")
      case "stack/core/config/freeDiameter/smf.conf" => Some("core-smf-1")
      case "stack/services/config/coredns/island.zone" => Some("services-dns-1")
      case "stack/services/data/portal/settings.json" => Some("services-portal-1")
      case "stack/backhaul/config/uplinks.yaml" => Some("backhaul-wan-edge-1")
      case _ => None
    ensures ContainerOf(p).Some? ==> p in TARGETS
  {
    assert "core" + "-" + "amf" + "-1" == "core-amf-1" && "core" + "-" + "mme" + "-1" == "core-mme-1";
    assert "core" + "-" + "nrf" + "-1" == "core-nrf-1" && "core" + "-" + "smf" + "-1" == "core-smf-1";
    assert "core" + "-" + "upf" + "-1" == "core-upf-1" && "core" + "-" + "hss" + "-1" == "core-hss-1";
    assert "core" + "-" + "pcrf" + "-1" == "core-pcrf-1";
    assert "services" + "-" + "dns" + "-1" == "services-dns-1";
    assert "services" + "-" + "portal" + "-1" == "services-portal-1";
    assert "backhaul" + "-" + "wan-edge" + "-1" == "backhaul-wan-edge-1";
  }

  // ----- console and host -----

  /** Vetting a vetted document again, against a file with the same identity, gives it back. */
  lemma VetAgain(tools: Tools, current: Tree, posted: Tree, later: Tree)
    requires Vet(tools, current, posted).Ok? && Identity(later) == Identity(current)
    ensures Vet(tools, later, Vet(tools, current, posted).value) == Vet(tools, current, posted)
  {
    BuildIdempotent(current, posted, later);
  }

  lemma VetSameIdentity(tools: Tools, current: Tree, posted: Tree, later: Tree)
    requires Identity(later) == Identity(current)
    ensures Vet(tools, later, posted) == Vet(tools, current, posted)
  {
  }

  /** A draft the console staged never fails validation or rendering on the host: the run ends with the signing
      key, or writes exactly the files the console showed. */
  lemma StagedDraftApplies(tools: Tools, docker: string -> bool, d: Disk, posted: Tree)
    requires SaveDraft(tools, d, posted).1.verdict.Ok?
    ensures
      var (staged, answer) := SaveDraft(tools, d, posted);
      var (after, outcome) := Apply(tools, docker, staged);
      match LoadSigningKeypair(tools, d.island.value, d.keys)
      case Err(e) => (after, outcome) == (staged, e)
      case Ok(_) =>
        && (outcome.RestartFailed? || (outcome.Applied? && outcome.changed == answer.changed))
        && Unsigned(after.island.value) == answer.verdict.value
  {
    var current := d.island.value;
    var c := Vet(tools, current, posted).value;
    VetAgain(tools, current, posted, current);
    VettedIsStaged(tools, current, posted);
    var pair := LoadSigningKeypair(tools, current, d.keys);
    WithoutSame(c.fields, "signature");
    if pair.Ok? {
      SignedIsStaged(tools.checks.ed, Identity(current).value, c, pair.value);
      assert RenderedFiles(tools, WithSignature(tools.checks.ed, c, pair.value), d.targets)
          == RenderedFiles(tools, c, d.targets);
    }
  }

  /** A signed document the keypair loads from gives the same keypair as the file it replaced. */
  lemma SameKeypair(tools: Tools, l: Locked, current: Tree, c: Tree, keys: map<string, string>)
    requires Identity(current) == Some(l) && Staged(l, c) && LoadSigningKeypair(tools, current, keys).Ok?
    ensures
      var pair := LoadSigningKeypair(tools, current, keys);
      LoadSigningKeypair(tools, WithSignature(tools.checks.ed, c, pair.value), keys) == pair
  {
    var pair := LoadSigningKeypair(tools, current, keys);
    GetPut(c.fields, "signature", SignDocument(tools.checks.ed, c, pair.value), "island");
  }

  /** Running the same draft against the file it was applied to prepares the same signed document. */
  lemma PreparedAgain(tools: Tools, d: Disk, later: Disk)
    requires Prepare(tools, d).Ok?
    requires later.island == Some(Prepare(tools, d).value) && later.keys == d.keys
    requires later.draft.Some?
    requires
      || later.draft == d.draft
      || later.draft.value == Unsigned(Prepare(tools, d).value)
    ensures Prepare(tools, later) == Prepare(tools, d)
  {
    var current := d.island.value;
    var l := Identity(current).value;
    var c := Vet(tools, current, d.draft.value).value;
    var pair := LoadSigningKeypair(tools, current, d.keys).value;
    VettedIsStaged(tools, current, d.draft.value);
    SignedIsStaged(tools.checks.ed, l, c, pair);
    SameKeypair(tools, l, current, c, d.keys);
    VetAgain(tools, current, d.draft.value, later.island.value);
  }

  /** Once the island file is the one prepared and the targets are rendered from it, a run changes and restarts
      nothing, whatever docker does. */
  lemma QuietRun(tools: Tools, docker: string -> bool, d: Disk)
    requires Prepare(tools, d).Ok? && d.island == Some(Prepare(tools, d).value)
    requires RendersTo(tools, d.island.value, d.targets)
    ensures Apply(tools, docker, d) == (d.(draft := None), Applied([], []))
  {
    NothingToWrite(tools, d.island.value, d.targets);
    var paths := PathsOf(ChangedFiles(RenderedFiles(tools, d.island.value, d.targets)));
    assert paths == [];
    assert d.restarted + [] == d.restarted;
  }

  /** On a disk in the state a run leaves, the console stages the same candidate again and shows no change. */
  lemma StagedAgain(tools: Tools, posted: Tree, signed: Tree, later: Disk)
    requires signed.Obj? && later.island == Some(signed) && RendersTo(tools, signed, later.targets)
    requires Vet(tools, signed, posted) == Ok(Unsigned(signed)) && tools.rendering(Unsigned(signed)).Renders?
    ensures SaveDraft(tools, later, posted) ==
            (later.(draft := Some(Unsigned(signed))), Staging(Ok(Unsigned(signed)), []))
  {
    var c := Unsigned(signed);
    VettedIsStaged(tools, signed, posted);
    WithoutSame(c.fields, "signature");
    assert Unsigned(c) == c;
    NothingToWrite(tools, signed, later.targets);
    assert RenderedFiles(tools, c, later.targets) == RenderedFiles(tools, signed, later.targets);
    assert PathsOf([]) == [];
  }

  lemma PreparedRenders(tools: Tools, d: Disk)
    requires Prepare(tools, d).Ok?
    ensures tools.rendering(Unsigned(Prepare(tools, d).value)).Renders?
  {
  }

  /** Staging and applying again what was applied leaves the disk exactly as it is and restarts nothing. */
  lemma ReapplyIsQuiet(tools: Tools, docker: string -> bool, d: Disk, again: string -> bool)
    requires Apply(tools, docker, d).1.Applied?
    ensures
      var after := Apply(tools, docker, d).0;
      var (staged, answer) := SaveDraft(tools, after, d.draft.value);
      && answer.verdict.Ok? && answer.changed == []
      && Apply(tools, again, staged) == (after, Applied([], []))
  {
    ApplyIsTransactional(tools, docker, d);
    Reapplied(tools, docker, d, Prepare(tools, d).value, again);
  }

  lemma Reapplied(tools: Tools, docker: string -> bool, d: Disk, signed: Tree, again: string -> bool)
    requires Prepare(tools, d) == Ok(signed) && Commit(tools, docker, d, signed).1.Applied?
    ensures
      var after := Commit(tools, docker, d, signed).0;
      var (staged, answer) := SaveDraft(tools, after, d.draft.value);
      && answer.verdict.Ok? && answer.changed == []
      && Apply(tools, again, staged) == (after, Applied([], []))
  {
    var after := Commit(tools, docker, d, signed).0;
    Prepared(tools, d);
    WriteExact(tools, signed, d.targets);
    PreparedRenders(tools, d);
    VetSameIdentity(tools, d.island.value, d.draft.value, signed);
    StagedAgain(tools, d.draft.value, signed, after);
    var staged := after.(draft := Some(Unsigned(signed)));
    PreparedAgain(tools, d, staged);
    QuietRun(tools, again, staged);
  }

  /** After a restart failed, a second run reports success and restarts nothing: the containers that were still to
      be restarted keep running on their old configuration. */
  lemma RetryRestartsNothing(tools: Tools, docker: string -> bool, d: Disk, again: string -> bool)
    requires Apply(tools, docker, d).1.RestartFailed?
    ensures
      var (first, outcome) := Apply(tools, docker, d);
      var (second, retried) := Apply(tools, again, first);
      && retried == Applied([], []) && second == first.(draft := None)
      && |d.restarted| <= |second.restarted|
      && exists c :: Affected(tools, first.island.value, d.targets, c) && c !in second.restarted[|d.restarted|..]
  {
    ApplyIsTransactional(tools, docker, d);
    ApplyRestarts(tools, docker, d);
    var first := Apply(tools, docker, d).0;
    PreparedAgain(tools, d, first);
    QuietRun(tools, again, first);
  }

  // ----- any number of runs -----

  /** The console stages a document, anyone puts something in the draft's place, or an operator applies. */
  datatype Event = Stage(posted: Tree) | Place(draft: Option<Tree>) | ApplyNow(docker: string -> bool)

  function Next(tools: Tools, d: Disk, e: Event): Disk {
    match e
    case Stage(posted) => SaveDraft(tools, d, posted).0
    case Place(draft) => d.(draft := draft)
    case ApplyNow(docker) => Apply(tools, docker, d).0
  }

  function Run(tools: Tools, d: Disk, events: seq<Event>): Disk
    decreases |events|
  {
    if events == [] then d else Run(tools, Next(tools, d, events[0]), events[1..])
  }

  ghost predicate Steady(tools: Tools, l: Locked, start: Disk, d: Disk) {
    && d.keys == start.keys
    && (|| (d.island == start.island && d.targets == start.targets && d.restarted == start.restarted)
        || InOrder(tools, l, d))
  }

  lemma NextIsSteady(tools: Tools, l: Locked, start: Disk, d: Disk, e: Event)
    requires start.island.Some? && Identity(start.island.value) == Some(l)
    requires Steady(tools, l, start, d)
    ensures Steady(tools, l, start, Next(tools, d, e))
  {
    if e.ApplyNow? {
      ApplyIsTransactional(tools, e.docker, d);
    }
  }

  /** Whatever is staged or put in the draft's place, and however docker behaves, the island file keeps its
      identity; it is the file it always was, with every target as it was, or it is a non-production document that
      verifies under a matching key, with every target rendered from it. */
  lemma {:induction false} RunsKeepIdentity(tools: Tools, l: Locked, start: Disk, d: Disk, events: seq<Event>)
    requires start.island.Some? && Identity(start.island.value) == Some(l)
    requires Steady(tools, l, start, d)
    ensures Steady(tools, l, start, Run(tools, d, events))
    ensures Run(tools, d, events).island.Some? && Identity(Run(tools, d, events).island.value) == Some(l)
    decreases |events|
  {
    if events != [] {
      NextIsSteady(tools, l, start, d, events[0]);
      RunsKeepIdentity(tools, l, start, Next(tools, d, events[0]), events[1..]);
    }
  }
}
