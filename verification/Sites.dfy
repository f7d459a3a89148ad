/** The duplicate-PCI check over an island's sites. */
module Sites {
  import opened Results
  import opened Json

  /** The PCIs of the cells by site, None for a cell without one. */
  type Table = seq<seq<Option<Tree>>>

  /** A cell by the index of its site and its own index there. */
  datatype Position = Position(site: nat, cell: nat)

  /** A cell whose PCI is already used, and where it is used first. */
  datatype DuplicatePci = DuplicatePci(at: Position, pci: Tree, first: Position)

  predicate Has(sites: Table, p: Position, pci: Tree) {
    p.site < |sites| && p.cell < |sites[p.site]| && sites[p.site][p.cell] == Some(pci)
  }

  /** Reading order: site by site, cell by cell. */
  predicate Earlier(p: Position, q: Position) { p.site < q.site || (p.site == q.site && p.cell < q.cell) }

  ghost predicate FirstUse(sites: Table, p: Position, pci: Tree) {
    Has(sites, p, pci) && forall q | Earlier(q, p) :: !Has(sites, q, pci)
  }

  ghost predicate IsDuplicate(sites: Table, d: DuplicatePci) {
    Has(sites, d.at, d.pci) && FirstUse(sites, d.first, d.pci) && Earlier(d.first, d.at)
  }

  ghost predicate Reported(issues: seq<DuplicatePci>, p: Position) { exists i | 0 <= i < |issues| :: issues[i].at == p }

  /** Everything before `end` has been read. */
  ghost predicate ReadTo(sites: Table, seen: map<Tree, Position>, issues: seq<DuplicatePci>, end: Position) {
    && (forall pci | pci in seen :: FirstUse(sites, seen[pci], pci) && Earlier(seen[pci], end))
    && (forall p, pci | Has(sites, p, pci) && Earlier(p, end) :: pci in seen && (p == seen[pci] || Reported(issues, p)))
    && (forall i | 0 <= i < |issues| :: IsDuplicate(sites, issues[i]) && Earlier(issues[i].at, end))
    && (forall i, j | 0 <= i < j < |issues| :: Earlier(issues[i].at, issues[j].at))
  }

  function After(p: Position): Position { p.(cell := p.cell + 1) }

  lemma ReadBlank(sites: Table, seen: map<Tree, Position>, issues: seq<DuplicatePci>, at: Position)
    requires ReadTo(sites, seen, issues, at) && forall pci :: !Has(sites, at, pci)
    ensures ReadTo(sites, seen, issues, After(at))
  {
  }

  lemma ReadNew(sites: Table, seen: map<Tree, Position>, issues: seq<DuplicatePci>, at: Position, pci: Tree)
    requires ReadTo(sites, seen, issues, at) && Has(sites, at, pci) && pci !in seen
    ensures ReadTo(sites, seen[pci := at], issues, After(at))
  {
    forall q | Earlier(q, at) ensures !Has(sites, q, pci) {
    }
  }

  lemma ReportedLonger(issues: seq<DuplicatePci>, d: DuplicatePci)
    ensures Reported(issues + [d], d.at)
    ensures forall p | Reported(issues, p) :: Reported(issues + [d], p)
  {
    assert (issues + [d])[|issues|] == d;
    forall p | Reported(issues, p) ensures Reported(issues + [d], p) {
      var i :| 0 <= i < |issues| && issues[i].at == p;
      assert (issues + [d])[i].at == p;
    }
  }

  lemma ReadUsed(sites: Table, seen: map<Tree, Position>, issues: seq<DuplicatePci>, at: Position, pci: Tree)
    requires ReadTo(sites, seen, issues, at) && Has(sites, at, pci) && pci in seen
    ensures ReadTo(sites, seen, issues + [DuplicatePci(at, pci, seen[pci])], After(at))
  {
    ReportedLonger(issues, DuplicatePci(at, pci, seen[pci]));
  }

  lemma ReadSite(sites: Table, seen: map<Tree, Position>, issues: seq<DuplicatePci>, site: nat)
    requires site < |sites| && ReadTo(sites, seen, issues, Position(site, |sites[site]|))
    ensures ReadTo(sites, seen, issues, Position(site + 1, 0))
  {
  }

  /** The first cell with each PCI read so far, and what was reported. */
  datatype Reading = Reading(seen: map<Tree, Position>, issues: seq<DuplicatePci>)

  function Read(r: Reading, at: Position, pci: Option<Tree>): Reading {
    if pci.None? then r
    else if pci.value in r.seen then r.(issues := r.issues + [DuplicatePci(at, pci.value, r.seen[pci.value])])
    else r.(seen := r.seen[pci.value := at])
  }

  /** All sites before `site`, and `cell` cells of that one. */
  function ReadThrough(sites: Table, site: nat, cell: nat): Reading
    requires if site < |sites| then cell <= |sites[site]| else site == |sites| && cell == 0
    decreases site, cell
  {
    if cell > 0 then Read(ReadThrough(sites, site, cell - 1), Position(site, cell - 1), sites[site][cell - 1])
    else if site > 0 then ReadThrough(sites, site - 1, |sites[site - 1]|)
    else Reading(map[], [])
  }

  function DuplicatePcis(sites: Table): seq<DuplicatePci> { ReadThrough(sites, |sites|, 0).issues }

  lemma {:induction false} ReadsAll(sites: Table, site: nat, cell: nat)
    requires if site < |sites| then cell <= |sites[site]| else site == |sites| && cell == 0
    ensures var r := ReadThrough(sites, site, cell); ReadTo(sites, r.seen, r.issues, Position(site, cell))
    decreases site, cell
  {
    if cell > 0 {
      ReadsAll(sites, site, cell - 1);
      var r, at := ReadThrough(sites, site, cell - 1), Position(site, cell - 1);
      var pci := sites[site][cell - 1];
      if pci.None? {
        ReadBlank(sites, r.seen, r.issues, at);
      } else if pci.value in r.seen {
        ReadUsed(sites, r.seen, r.issues, at, pci.value);
      } else {
        ReadNew(sites, r.seen, r.issues, at, pci.value);
      }
    } else if site > 0 {
      ReadsAll(sites, site - 1, |sites[site - 1]|);
      var r := ReadThrough(sites, site - 1, |sites[site - 1]|);
      ReadSite(sites, r.seen, r.issues, site - 1);
    }
  }

  /** The issues are exactly the cells whose PCI an earlier cell has, in reading order, each with the first such
      cell. */
  ghost predicate Exact(sites: Table, issues: seq<DuplicatePci>) {
    && (forall i | 0 <= i < |issues| :: IsDuplicate(sites, issues[i]))
    && (forall p, pci | Has(sites, p, pci) :: FirstUse(sites, p, pci) || Reported(issues, p))
    && (forall i, j | 0 <= i < j < |issues| :: Earlier(issues[i].at, issues[j].at))
  }

  lemma DuplicatesExact(sites: Table)
    ensures Exact(sites, DuplicatePcis(sites))
  {
    ReadsAll(sites, |sites|, 0);
  }

  /** Reports exactly the cells whose PCI an earlier cell has. */
  method CheckPciUniqueness(sites: Table) returns (issues: seq<DuplicatePci>)
    ensures issues == DuplicatePcis(sites)
    ensures Exact(sites, issues)
  {
    issues := [];
    var seen: map<Tree, Position> := map[];
    for si := 0 to |sites|
      invariant Reading(seen, issues) == ReadThrough(sites, si, 0)
    {
      var cells := sites[si];
      for ci := 0 to |cells|
        invariant Reading(seen, issues) == ReadThrough(sites, si, ci)
      {
        if cells[ci].Some? {
          var pci := cells[ci].value;
          if pci in seen {
            issues := issues + [DuplicatePci(Position(si, ci), pci, seen[pci])];
          } else {
            seen := seen[pci := Position(si, ci)];
          }
        }
      }
    }
    DuplicatesExact(sites);
  }

  ghost predicate AllDistinct(sites: Table) {
    forall p, q, pci | Has(sites, p, pci) && Has(sites, q, pci) :: p == q
  }

  /** The check reports nothing exactly when no two cells have the same PCI. */
  lemma SilentIffUnique(sites: Table, issues: seq<DuplicatePci>)
    requires Exact(sites, issues)
    ensures issues == [] <==> AllDistinct(sites)
  {
    if issues == [] {
      forall p, q, pci | Has(sites, p, pci) && Has(sites, q, pci) ensures p == q {
        assert !Reported(issues, p) && !Reported(issues, q);
        assert Earlier(p, q) || Earlier(q, p) || p == q;
      }
    } else {
      assert IsDuplicate(sites, issues[0]);
    }
  }

  /** A cell is reported exactly when an earlier one has its PCI. */
  lemma ReportedIff(sites: Table, p: Position)
    ensures Reported(DuplicatePcis(sites), p) <==>
            exists q, pci :: Has(sites, p, pci) && Has(sites, q, pci) && Earlier(q, p)
  {
    DuplicatesExact(sites);
  }
}
