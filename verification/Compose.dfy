/** The unplug guard's reading of compose files: line by line, with a stack of open mappings. */
module Compose {
  import opened Results

  // ----- one line -----

  predicate IsSpace(c: char) { c == ' ' || '\t' <= c <= '\r' }

  predicate IsKeyChar(c: char) {
    || 'a' <= c <= 'z' || 'A' <= c <= 'Z' || '0' <= c <= '9'
    || c == '_' || c == '.' || c == '$' || c == '{' || c == '}' || c == '-'
  }

  function StripLeft(s: string): string { if s != "" && IsSpace(s[0]) then StripLeft(s[1..]) else s }

  function StripRight(s: string): string { if s != "" && IsSpace(s[|s| - 1]) then StripRight(s[..|s| - 1]) else s }

  function Strip(s: string): string { StripRight(StripLeft(s)) }

  function LeadingSpaces(s: string): nat { if s != "" && s[0] == ' ' then 1 + LeadingSpaces(s[1..]) else 0 }

  /** How far the key characters reach. */
  function KeyEnd(s: string): (n: nat)
    ensures n <= |s|
  {
    if s != "" && IsKeyChar(s[0]) then 1 + KeyEnd(s[1..]) else 0
  }

  /** What a line says: nothing, or a key at an indent with its value; a bare list item has no value. */
  datatype Line = Skip | Says(indent: nat, key: string, val: Option<string>)

  function Lex(raw: string): Line {
    var s0 := Strip(raw);
    if s0 == "" || s0[0] == '#' then Skip else
    var isListItem := |s0| >= 2 && s0[0] == '-' && s0[1] == ' ';
    var s := if isListItem then s0[2..] else s0;
    var indent := LeadingSpaces(raw) + if isListItem then 2 else 0;
    var n := KeyEnd(s);
    if 0 < n < |s| && s[n] == ':' then Says(indent, s[..n], Some(Strip(s[n + 1..])))
    else if isListItem then Says(indent, s, None)
    else Skip
  }

  /** The position of the first `:` or `}`. */
  function NameEnd(s: string): (n: nat)
    ensures n <= |s|
  {
    if s == "" || s[0] == ':' || s[0] == '}' then 0 else 1 + NameEnd(s[1..])
  }

  /** `${VAR:-address}` stands for its default; anything else for itself. */
  function DefaultOf(v: string): string {
    if |v| < 2 || v[0] != '$' || v[1] != '{' then v else
    var r := v[2..];
    var n := NameEnd(r);
    if 0 < n && n + 3 < |r| && r[n] == ':' && r[n + 1] == '-' && r[|r| - 1] == '}' && '}' !in r[n + 2..|r| - 1]
    then r[n + 2..|r| - 1]
    else v
  }

  // ----- what is collected -----

  datatype Member = Member(file: string, service: string, network: string)

  datatype Facts = Facts(internal: set<string>, ips: map<Member, string>, memberships: set<Member>)

  const NO_FACTS := Facts({}, map[], {})

  /** What one key under its open mappings adds. */
  function Note(file: string, f: Facts, path: seq<string>, key: string, val: Option<string>): Facts {
    var n := |path|;
    if key == "ipv4_address" && val.Some? && val.value != "" then
      if n >= 4 && path[0] == "services" && path[n - 2] == "networks"
      then f.(ips := f.ips[Member(file, path[1], path[n - 1]) := DefaultOf(val.value)]) else f
    else if key == "internal" && val == Some("true") then
      if n >= 2 && path[0] == "networks" then f.(internal := f.internal + {path[1]}) else f
    else if n >= 3 && path[0] == "services" && path[n - 1] == "networks" then
      f.(memberships := f.memberships + {Member(file, path[1], key)})
    else f
  }

  datatype Open = Open(indent: nat, key: string)

  datatype State = State(stack: seq<Open>, facts: Facts)

  /** `while stack and stack[-1][0] >= indent: stack.pop()`. */
  function PopTo(stack: seq<Open>, indent: nat): seq<Open> {
    if stack != [] && stack[|stack| - 1].indent >= indent then PopTo(stack[..|stack| - 1], indent) else stack
  }

  function KeysOf(stack: seq<Open>): (r: seq<string>)
    ensures |r| == |stack|
  {
    seq(|stack|, i requires 0 <= i < |stack| => stack[i].key)
  }

  function Step(file: string, st: State, line: Line): State {
    match line
    case Skip => st
    case Says(indent, key, val) =>
      var stack := PopTo(st.stack, indent);
      var facts := Note(file, st.facts, KeysOf(stack), key, val);
      State(if val.Some? && (val.value == "" || val.value == "{}") then stack + [Open(indent, key)] else stack, facts)
  }

  function Run(file: string, st: State, lines: seq<Line>): State
    decreases lines
  {
    if lines == [] then st else Run(file, Step(file, st, lines[0]), lines[1..])
  }

  function LexAll(raws: seq<string>): seq<Line> {
    if raws == [] then [] else [Lex(raws[0])] + LexAll(raws[1..])
  }

  function FactsOf(file: string, raws: seq<string>): Facts { Run(file, State([], NO_FACTS), LexAll(raws)).facts }

  /** The run over the lines from `i` on begins with the step for that line. */
  lemma RunsOn(file: string, st: State, raws: seq<string>, i: nat)
    requires i < |raws|
    ensures Run(file, st, LexAll(raws[i..])) == Run(file, Step(file, st, Lex(raws[i])), LexAll(raws[i + 1..]))
  {
    assert raws[i..][1..] == raws[i + 1..] && LexAll(raws[i..])[1..] == LexAll(raws[i + 1..]);
  }

  /** Leaves open what was opened at a smaller indent. */
  method Pop(stack: seq<Open>, indent: nat) returns (left: seq<Open>)
    ensures left == PopTo(stack, indent)
  {
    left := stack;
    while left != [] && left[|left| - 1].indent >= indent
      invariant PopTo(left, indent) == PopTo(stack, indent)
    {
      left := left[..|left| - 1];
    }
  }

  /** Adds what one key under its open mappings says to the three collections. */
  method Collect(file: string, keys: seq<string>, key: string, val: Option<string>, f: Facts)
    returns (internal: set<string>, ips: map<Member, string>, memberships: set<Member>)
    ensures Facts(internal, ips, memberships) == Note(file, f, keys, key, val)
  {
    internal, ips, memberships := f.internal, f.ips, f.memberships;
    var n := |keys|;
    if key == "ipv4_address" && val.Some? && val.value != "" {
      if n >= 4 && keys[0] == "services" && keys[n - 2] == "networks" {
        ips := ips[Member(file, keys[1], keys[n - 1]) := DefaultOf(val.value)];
      }
    } else if key == "internal" && val == Some("true") {
      if n >= 2 && keys[0] == "networks" {
        internal := internal + {keys[1]};
      }
    } else if n >= 3 && keys[0] == "services" && keys[n - 1] == "networks" {
      memberships := memberships + {Member(file, keys[1], key)};
    }
  }

  method Parse(file: string, raws: seq<string>)
    returns (internal: set<string>, ips: map<Member, string>, memberships: set<Member>)
    ensures Facts(internal, ips, memberships) == FactsOf(file, raws)
  {
    internal, ips, memberships := {}, map[], {};
    var stack: seq<Open> := [];
    assert raws[0..] == raws;
    for i := 0 to |raws|
      invariant FactsOf(file, raws) ==
        Run(file, State(stack, Facts(internal, ips, memberships)), LexAll(raws[i..])).facts
    {
      var line := Lex(raws[i]);
      RunsOn(file, State(stack, Facts(internal, ips, memberships)), raws, i);
      if line.Says? {
        stack := Pop(stack, line.indent);
        internal, ips, memberships :=
          Collect(file, KeysOf(stack), line.key, line.val, Facts(internal, ips, memberships));
        if line.val.Some? && (line.val.value == "" || line.val.value == "{}") {
          stack := stack + [Open(line.indent, line.key)];
        }
      }
    }
  }

  // ----- the verdict -----

  datatype Source = Source(file: string, raws: seq<string>)

  datatype Problem = Missing(address: string, at: Member) | Dynamic(at: Member)

  function Joined(f: Facts, g: Facts): Facts {
    Facts(f.internal + g.internal, f.ips + g.ips, f.memberships + g.memberships)
  }

  function AllFacts(sources: seq<Source>): Facts {
    if sources == [] then NO_FACTS
    else Joined(AllFacts(sources[..|sources| - 1]), FactsOf(sources[|sources| - 1].file, sources[|sources| - 1].raws))
  }

  function Problems(f: Facts, declared: set<string>): set<Problem> {
    (set m | m in f.ips && m.network !in f.internal && f.ips[m] !in declared :: Missing(f.ips[m], m))
    + (set m | m in f.memberships && m.network !in f.internal && m !in f.ips :: Dynamic(m))
  }

  /** The guard: it passes when there is no problem to report. */
  method Check(sources: seq<Source>, declared: set<string>) returns (problems: set<Problem>)
    ensures problems == Problems(AllFacts(sources), declared)
    ensures var f := AllFacts(sources);
      && (forall a, m :: Missing(a, m) in problems <==>
            m in f.ips && f.ips[m] == a && a !in declared && m.network !in f.internal)
      && (forall m :: Dynamic(m) in problems <==> m in f.memberships && m !in f.ips && m.network !in f.internal)
  {
    var allInternal: set<string>, allIps: map<Member, string>, allMemberships: set<Member> := {}, map[], {};
    var i := 0;
    while i < |sources|
      invariant i <= |sources|
      invariant Facts(allInternal, allIps, allMemberships) == AllFacts(sources[..i])
    {
      var internal, ips, memberships := Parse(sources[i].file, sources[i].raws);
      assert sources[..i + 1][..i] == sources[..i];
      allInternal := allInternal + internal;
      allIps := allIps + ips;
      allMemberships := allMemberships + memberships;
      i := i + 1;
    }
    assert sources[..i] == sources;
    problems := (set m | m in allIps && m.network !in allInternal && allIps[m] !in declared :: Missing(allIps[m], m))
      + (set m | m in allMemberships && m.network !in allInternal && m !in allIps :: Dynamic(m));
  }
}
