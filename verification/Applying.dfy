/** Staging a draft in the console and applying it on the host: validate, sign, render, write, restart. */
module Applying {
  import opened Results
  import opened Json
  import opened Signing
  import opened Drafts

  /** What `render_all` renders, in writing order. */
  const TARGETS: seq<string> := [
    "stack/core/compose.yaml",
    "stack/core/config/amf.yaml",
    "stack/core/config/sepp.yaml",
    "stack/core/config/mme.yaml",
    "stack/core/config/nrf.yaml",
    "stack/core/config/ausf.yaml",
    "stack/core/config/udm.yaml",
    "stack/core/config/udr.yaml",
    "stack/core/config/nssf.yaml",
    "stack/core/config/pcf.yaml",
    "stack/core/config/bsf.yaml",
    "stack/core/config/sgwc.yaml",
    "stack/core/config/sgwu.yaml",
    "stack/core/config/smf.yaml",
    "stack/core/config/upf.yaml",
    "stack/core/config/freeDiameter/hss.conf",
    "stack/core/config/freeDiameter/mme.conf",
    "stack/core/config/freeDiameter/pcrf.conf",
    "stack/core/config/freeDiameter/smf.conf",
    "stack/services/config/coredns/island.zone",
    "stack/services/data/portal/settings.json",
    "stack/backhaul/config/uplinks.yaml",
    "stack/federation/compose.yaml",
    "stack/federation/data/wg-up.sh",
    "island-init/data/lis-geometry.json"
  ]

  /** The container that reads a rendered file, by compose project and service. */
  const RESTART_MAP: map<string, (string, string)> := map[
    "stack/core/config/amf.yaml" := ("core", "amf"),
    "stack/core/config/mme.yaml" := ("core", "mme"),
    "stack/core/config/nrf.yaml" := ("core", "nrf"),
    "stack/core/config/smf.yaml" := ("core", "smf"),
    "stack/core/config/upf.yaml" := ("core", "upf"),
    "stack/core/config/freeDiameter/hss.conf" := ("core", "hss"),
    "stack/core/config/freeDiameter/mme.conf" := ("core", "mme"),
    "stack/core/config/freeDiameter/pcrf.conf" := ("core", "pcrf"),
    "stack/core/config/freeDiameter/smf.conf" := ("core", "smf"),
    "stack/services/config/coredns/island.zone" := ("services", "dns"),
    "stack/services/data/portal/settings.json" := ("services", "portal"),
    "stack/backhaul/config/uplinks.yaml" := ("backhaul", "wan-edge")
  ]

  function ContainerOf(path: string): Option<string> {
    if path in RESTART_MAP then Some(RESTART_MAP[path].0 + "-" + RESTART_MAP[path].1 + "-1") else None
  }

  datatype Rendering = Renders | RenderError(text: string) | RenderRaises

  /** The code a node calls: the checks, decoding a private key file, and rendering a document without its
      signature block, which no template reads. */
  datatype Tools = Tools(
    checks: Checks,
    parseKey: string -> Option<string>,
    rendering: Tree -> Rendering,
    content: (Tree, string) -> string)

  datatype RenderedFile = RenderedFile(path: string, content: string, existing: Option<string>)

  predicate Changed(f: RenderedFile) { f.existing != Some(f.content) }

  function RenderedFiles(tools: Tools, doc: Tree, targets: map<string, string>): seq<RenderedFile>
    requires doc.Obj?
  {
    seq(|TARGETS|, i requires 0 <= i < |TARGETS| =>
      RenderedFile(TARGETS[i], tools.content(Unsigned(doc), TARGETS[i]),
        if TARGETS[i] in targets then Some(targets[TARGETS[i]]) else None))
  }

  function ChangedFiles(files: seq<RenderedFile>): seq<RenderedFile> {
    if files == [] then [] else (if Changed(files[0]) then [files[0]] else []) + ChangedFiles(files[1..])
  }

  function PathsOf(files: seq<RenderedFile>): seq<string> { seq(|files|, i requires 0 <= i < |files| => files[i].path) }

  function Written(files: seq<RenderedFile>, targets: map<string, string>): map<string, string> {
    if files == [] then targets
    else Written(files[1..], if Changed(files[0]) then targets[files[0].path := files[0].content] else targets)
  }

  // ----- restarts -----

  /** The containers restarted so far, and the one that would not restart, if any. */
  datatype Restarts = Restarts(done: seq<string>, failed: Option<string>)

  function Restart(docker: string -> bool, r: Restarts, path: string): Restarts {
    var c := ContainerOf(path);
    if r.failed.Some? || c.None? || c.value in r.done then r
    else if docker(c.value) then r.(done := r.done + [c.value])
    else r.(failed := c)
  }

  function RestartAll(docker: string -> bool, paths: seq<string>): Restarts {
    if paths == [] then Restarts([], None)
    else Restart(docker, RestartAll(docker, paths[..|paths| - 1]), paths[|paths| - 1])
  }

  // ----- one run of apply -----

  datatype Outcome =
    | Applied(changed: seq<string>, restarted: seq<string>)
    | NoDraft
    | NoIslandFile
    | Invalid(issues: seq<string>)
    | NoSigningKey
    | RenderFailed(text: string)
    | RestartFailed(container: string)
    | Raised

  /** A run that ends this way has written nothing. */
  predicate Early(o: Outcome) { !o.Applied? && !o.RestartFailed? }

  /** The files apply works on, the private keys by island id, and every container restarted so far. */
  datatype Disk = Disk(island: Option<Tree>, draft: Option<Tree>, targets: map<string, string>,
    keys: map<string, string>, restarted: seq<string>)

  function LoadSigningKeypair(tools: Tools, current: Tree, keys: map<string, string>): (r: Result<Keypair, Outcome>)
    ensures r.Err? ==> Early(r.error)
  {
    var island := if current.Obj? then Child(current.fields, "island") else None;
    if island.None? then Err(Raised) else
    var id := OrNull(Get(island.value, "id"));
    if !id.Str? then Err(Raised)
    else if id.s !in keys then Err(NoSigningKey) else
    match tools.parseKey(keys[id.s])
    case None => Err(Raised)
    case Some(k) =>
      if Get(island.value, "signing_public_key").None? then Err(Raised) else
      match Get(island.value, "signing_key_fingerprint")
      case None => Err(Raised)
      case Some(fingerprint) => Ok(Keypair(k, fingerprint))
  }

  /** Building and validating a candidate; what the console and the host both do with a posted document. */
  function Vet(tools: Tools, current: Tree, posted: Tree): (r: Result<Tree, Outcome>)
    ensures r.Ok? ==> r.value.Obj?
    ensures r.Err? ==> Early(r.error)
  {
    match BuildCandidate(current, posted)
    case None => Err(Raised)
    case Some(c) =>
      match Validate(tools.checks, c)
      case None => Err(Raised)
      case Some(issues) => if issues != [] then Err(Invalid(issues)) else Ok(c)
  }

  function TryRender(tools: Tools, doc: Tree): (r: Result<Tree, Outcome>)
    requires doc.Obj?
    ensures r.Ok? ==> r.value == doc
    ensures r.Err? ==> Early(r.error)
  {
    match tools.rendering(Unsigned(doc))
    case Renders => Ok(doc)
    case RenderError(text) => Err(RenderFailed(text))
    case RenderRaises => Err(Raised)
  }

  /** Everything before the first write: the signed document to write, or how the run ends. */
  function Prepare(tools: Tools, d: Disk): (r: Result<Tree, Outcome>)
    ensures r.Ok? ==> d.draft.Some? && d.island.Some? && r.value.Obj?
    ensures r.Err? ==> Early(r.error)
  {
    if d.draft.None? then Err(NoDraft)
    else if d.island.None? then Err(NoIslandFile)
    else
      match Vet(tools, d.island.value, d.draft.value)
      case Err(e) => Err(e)
      case Ok(c) =>
        match LoadSigningKeypair(tools, d.island.value, d.keys)
        case Err(e) => Err(e)
        case Ok(pair) => TryRender(tools, WithSignature(tools.checks.ed, c, pair))
  }

  function Commit(tools: Tools, docker: string -> bool, d: Disk, signed: Tree): (Disk, Outcome)
    requires signed.Obj?
  {
    var files := RenderedFiles(tools, signed, d.targets);
    var changed := PathsOf(ChangedFiles(files));
    var r := RestartAll(docker, changed);
    var after := d.(island := Some(signed), targets := Written(files, d.targets), restarted := d.restarted + r.done);
    if r.failed.Some? then (after, RestartFailed(r.failed.value)) else (after.(draft := None), Applied(changed, r.done))
  }

  function Apply(tools: Tools, docker: string -> bool, d: Disk): (Disk, Outcome) {
    match Prepare(tools, d)
    case Err(e) => (d, e)
    case Ok(signed) => Commit(tools, docker, d, signed)
  }

  // ----- staging -----

  datatype Staging = Staging(verdict: Result<Tree, Outcome>, changed: seq<string>)

  /** What the console answers to a posted document: the candidate and the files a render would change. */
  function Preview(tools: Tools, d: Disk, posted: Tree): Staging {
    if d.island.None? then Staging(Err(NoIslandFile), []) else
    match Vet(tools, d.island.value, posted)
    case Err(e) => Staging(Err(e), [])
    case Ok(c) =>
      match TryRender(tools, c)
      case Err(e) => Staging(Err(e), [])
      case Ok(_) => Staging(Ok(c), PathsOf(ChangedFiles(RenderedFiles(tools, c, d.targets))))
  }

  function SaveDraft(tools: Tools, d: Disk, posted: Tree): (Disk, Staging) {
    var s := Preview(tools, d, posted);
    (if s.verdict.Ok? then d.(draft := Some(s.verdict.value)) else d, s)
  }

  // ----- the node -----

  lemma WrittenSoFar(files: seq<RenderedFile>, targets: map<string, string>, k: nat)
    requires k < |files|
    ensures files[k..] != [] && files[k..][0] == files[k] && files[k..][1..] == files[k + 1..]
  {
  }

  class Node {
    const keys: map<string, string>
    var island: Option<Tree>
    var draft: Option<Tree>
    var targets: map<string, string>
    var restarted: seq<string>

    ghost function State(): Disk
      reads this
    {
      Disk(island, draft, targets, keys, restarted)
    }

    constructor (island: Option<Tree>, targets: map<string, string>, keys: map<string, string>)
      ensures State() == Disk(island, None, targets, keys, [])
    {
      this.island, this.draft, this.targets, this.keys, this.restarted := island, None, targets, keys, [];
    }

    /** Writes the files that changed and returns them. */
    method WriteAll(files: seq<RenderedFile>) returns (written: seq<RenderedFile>)
      modifies this`targets
      ensures targets == Written(files, old(targets)) && written == ChangedFiles(files)
    {
      written := [];
      var k := 0;
      while k < |files|
        invariant 0 <= k <= |files|
        invariant Written(files[k..], targets) == Written(files, old(targets))
        invariant written + ChangedFiles(files[k..]) == ChangedFiles(files)
      {
        WrittenSoFar(files, targets, k);
        if Changed(files[k]) {
          targets := targets[files[k].path := files[k].content];
          written := written + [files[k]];
        }
        k := k + 1;
      }
    }

    /** Restarts the container of every changed file that has one, each once, up to the first that fails. */
    method RestartFor(docker: string -> bool, paths: seq<string>) returns (done: seq<string>, failed: Option<string>)
      modifies this`restarted
      ensures Restarts(done, failed) == RestartAll(docker, paths)
      ensures restarted == old(restarted) + done
    {
      done, failed := [], None;
      var k := 0;
      while k < |paths| && failed.None?
        invariant 0 <= k <= |paths|
        invariant Restarts(done, failed) == RestartAll(docker, paths[..k])
        invariant restarted == old(restarted) + done
      {
        assert paths[..k + 1][..k] == paths[..k];
        var c := ContainerOf(paths[k]);
        if c.Some? && c.value !in done {
          if docker(c.value) {
            restarted := restarted + [c.value];
            done := done + [c.value];
          } else {
            failed := c;
          }
        }
        k := k + 1;
      }
      FailureStays(docker, paths, k);
    }

    method ApplyDraft(tools: Tools, docker: string -> bool) returns (outcome: Outcome)
      modifies this
      ensures (State(), outcome) == Apply(tools, docker, old(State()))
    {
      if draft.None? { return NoDraft; }
      if island.None? { return NoIslandFile; }
      var current, posted := island.value, draft.value;
      var vetted := Vet(tools, current, posted);
      if vetted.Err? { return vetted.error; }
      var pair := LoadSigningKeypair(tools, current, keys);
      if pair.Err? { return pair.error; }
      var signed := WithSignature(tools.checks.ed, vetted.value, pair.value);
      var rendered := TryRender(tools, signed);
      if rendered.Err? { return rendered.error; }
      outcome := CommitSigned(tools, docker, signed);
    }

    /** From the first write on. */
    method CommitSigned(tools: Tools, docker: string -> bool, signed: Tree) returns (outcome: Outcome)
      requires signed.Obj?
      modifies this
      ensures (State(), outcome) == Commit(tools, docker, old(State()), signed)
    {
      var files := RenderedFiles(tools, signed, targets);
      island := Some(signed);
      var written := WriteAll(files);
      var done, failed := RestartFor(docker, PathsOf(written));
      if failed.Some? { return RestartFailed(failed.value); }
      draft := None;
      outcome := Applied(PathsOf(written), done);
    }

    method DoSaveDraft(tools: Tools, posted: Tree) returns (answer: Staging)
      modifies this`draft
      ensures (State(), answer) == SaveDraft(tools, old(State()), posted)
    {
      if island.None? { return Staging(Err(NoIslandFile), []); }
      var vetted := Vet(tools, island.value, posted);
      if vetted.Err? { return Staging(vetted, []); }
      var rendered := TryRender(tools, vetted.value);
      if rendered.Err? { return Staging(rendered, []); }
      var files := RenderedFiles(tools, vetted.value, targets);
      draft := Some(vetted.value);
      answer := Staging(vetted, PathsOf(ChangedFiles(files)));
    }
  }

  lemma {:induction false} FailureStays(docker: string -> bool, paths: seq<string>, k: nat)
    requires k <= |paths| && (k == |paths| || RestartAll(docker, paths[..k]).failed.Some?)
    ensures RestartAll(docker, paths) == RestartAll(docker, paths[..k])
    decreases |paths|
  {
    if k < |paths| {
      var front := paths[..|paths| - 1];
      assert front[..k] == paths[..k];
      FailureStays(docker, front, k);
    } else {
      assert paths[..k] == paths;
    }
  }
}
