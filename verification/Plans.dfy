/** The duplicate-PCI and prefix-overlap checks on a document: what they read from it, what they report, and what a
    document they pass is like. */
module Plans {
  import opened Results
  import opened Json
  import opened Signing
  import opened Sites
  import opened Addressing
  import opened Prefixes

  /** The fields a check reports; None when it raises. */
  type Report = Option<seq<string>>

  function Joined(a: Report, b: Report): Report {
    if a.Some? && b.Some? then Some(a.value + b.value) else None
  }

  function When(bad: bool, field: string): seq<string> { if bad then [field] else [] }

  // ----- reading -----

  /** What `for x in t or []` goes through; None when it raises. */
  function Iterated(t: Tree): Option<seq<Tree>> {
    if !Truthy(t) then Some([]) else
    match t
    case Arr(items) => Some(items)
    case Obj(fields) => Some(seq(|fields|, i requires 0 <= i < |fields| => Str(fields[i].key)))
    case Str(s) => Some(seq(|s|, i requires 0 <= i < |s| => Str([s[i]])))
    case _ => None
  }

  /** A value as a dictionary key, so that equal keys are the same tree; None for one that cannot be a key. */
  function DictKey(t: Tree): Option<Tree> {
    match t
    case Arr(_) => None
    case Obj(_) => None
    case Bool(b) => Some(Num(if b then 1 else 0))
    case Real(lit) => Some(RealKey(lit))
    case _ => Some(t)
  }

  /** A float with a whole value is the integer's key. */
  function RealKey(lit: string): Tree {
    if |lit| < 2 || lit[|lit| - 2..] != ".0" then Real(lit) else
    var n := lit[..|lit| - 2];
    if n != "" && n[0] == '-' then Num(-ValueOf(n[1..])) else Num(ValueOf(n))
  }

  function CellPci(cell: Tree): Option<Option<Tree>> {
    match Dict(cell)
    case None => None
    case Some(fs) =>
      var pci := OrNull(Get(fs, "pci"));
      if pci.Null? then Some(None) else
      match DictKey(pci) case None => None case Some(k) => Some(Some(k))
  }

  /** `f` of every element, None if it is None for one. */
  function Each<A, B>(f: A -> Option<B>, xs: seq<A>): (ys: Option<seq<B>>)
    ensures ys.Some? <==> forall i | 0 <= i < |xs| :: f(xs[i]).Some?
    ensures ys.Some? ==> |ys.value| == |xs| && forall i | 0 <= i < |xs| :: Some(ys.value[i]) == f(xs[i])
  {
    if xs == [] then Some([]) else
    var y, ys := f(xs[0]), Each(f, xs[1..]);
    if y.Some? && ys.Some? then Some([y.value] + ys.value) else None
  }

  function SitePcis(site: Tree): Option<seq<Option<Tree>>> {
    match Dict(site)
    case None => None
    case Some(fs) =>
      match Iterated(OrNull(Get(fs, "cells")))
      case None => None
      case Some(cells) => Each(CellPci, cells)
  }

  function PciTable(doc: Tree): Option<Table>
    requires doc.Obj?
  {
    match Iterated(OrNull(Get(doc.fields, "sites")))
    case None => None
    case Some(sites) => Each(SitePcis, sites)
  }

  function PciField(p: Position): string {
    "sites[" + (Digits(p.site) + ("].cells[" + (Digits(p.cell) + "].pci")))
  }

  function PciIssues(doc: Tree): Report
    requires doc.Obj?
  {
    match PciTable(doc)
    case None => None
    case Some(sites) =>
      var issues := DuplicatePcis(sites);
      Some(seq(|issues|, i requires 0 <= i < |issues| => PciField(issues[i].at)))
  }

  /** `ip_network` on a value that counts as present; None when there is none, or none of IPv4. */
  function PrefixOf(t: Tree): (n: Option<Net>)
    ensures n.Some? ==> IsNet(n.value)
  {
    if !Truthy(t) then None else
    match t
    case Str(s) => ReadNet(s)
    case Num(n) => HostNet(n)
    case Bool(_) => HostNet(1)
    case _ => None
  }

  function HostNet(n: int): (net: Option<Net>)
    ensures net.Some? ==> IsNet(net.value)
  {
    if 0 <= n < SPACE then NetOfIsNet(n, 32); Some(NetOf(n, 32)) else None
  }

  const SERVICES_FIELD := "allocations.services_prefix"

  function OverlapIssues(doc: Tree): Report
    requires doc.Obj?
  {
    match DictAt(doc.fields, "allocations")
    case None => None
    case Some(allocations) =>
      match DictAt(allocations, "ue_prefix")
      case None => None
      case Some(ue) =>
        var services := PrefixOf(OrNull(Get(allocations, "services_prefix")));
        Some(When(PrefixesReported(PrefixOf(OrNull(Get(ue, "v4"))), services), SERVICES_FIELD))
  }

  function PlanIssues(doc: Tree): Report
    requires doc.Obj?
  {
    Joined(PciIssues(doc), OverlapIssues(doc))
  }

  // ----- what the reports mean -----

  /** `t[i]`, null where there is none. */
  function Item(t: Tree, i: nat): Tree { if t.Arr? && i < |t.items| then t.items[i] else Null }

  predicate SiteUses(site: Tree, cell: nat, pci: Tree) {
    var value := ValueAt(Item(ValueAt(site, "cells"), cell), "pci");
    value != Null && DictKey(value) == Some(pci)
  }

  /** The cell there has this PCI. */
  predicate UsesPci(doc: Tree, p: Position, pci: Tree) {
    SiteUses(Item(ValueAt(doc, "sites"), p.site), p.cell, pci)
  }

  lemma CellMeans(cell: Tree, pci: Tree)
    requires CellPci(cell).Some?
    ensures CellPci(cell).value == Some(pci) <==>
            ValueAt(cell, "pci") != Null && DictKey(ValueAt(cell, "pci")) == Some(pci)
  {
  }

  lemma SiteMeans(site: Tree, cell: nat, pci: Tree)
    requires SitePcis(site).Some?
    ensures
      var cells := SitePcis(site).value;
      cell < |cells| && cells[cell] == Some(pci) <==> SiteUses(site, cell, pci)
  {
    var listed := ValueAt(site, "cells");
    var cells := Iterated(listed).value;
    if cell < |cells| {
      CellMeans(cells[cell], pci);
    }
  }

  lemma TableMeans(doc: Tree, p: Position, pci: Tree)
    requires doc.Obj? && PciTable(doc).Some?
    ensures Has(PciTable(doc).value, p, pci) <==> UsesPci(doc, p, pci)
  {
    var sites := Iterated(ValueAt(doc, "sites")).value;
    if p.site < |sites| {
      SiteMeans(sites[p.site], p.cell, pci);
    }
  }

  /** No two cells have the same PCI. */
  ghost predicate DistinctPcis(doc: Tree) {
    forall p, q, pci | UsesPci(doc, p, pci) && UsesPci(doc, q, pci) :: p == q
  }

  /** An earlier cell has the PCI of the one there. */
  ghost predicate RepeatsPci(doc: Tree, p: Position) {
    exists q, pci :: UsesPci(doc, p, pci) && UsesPci(doc, q, pci) && Earlier(q, p)
  }

  /** The UE and services prefixes are not two that have an address in common. */
  ghost predicate DisjointPrefixes(doc: Tree) {
    var allocations := ValueAt(doc, "allocations");
    var ue := PrefixOf(ValueAt(ValueAt(allocations, "ue_prefix"), "v4"));
    var services := PrefixOf(ValueAt(allocations, "services_prefix"));
    ue.Some? && services.Some? ==> !Share(ue.value, services.value)
  }

  /** What the checks go through has the shape they expect. */
  predicate Readable(doc: Tree) {
    && doc.Obj? && PciTable(doc).Some? && DictAt(doc.fields, "allocations").Some?
    && DictAt(DictAt(doc.fields, "allocations").value, "ue_prefix").Some?
  }

  lemma ReportedFields(sites: Table, f: string)
    ensures
      var issues := DuplicatePcis(sites);
      f in seq(|issues|, i requires 0 <= i < |issues| => PciField(issues[i].at)) <==>
        exists p :: Reported(issues, p) && f == PciField(p)
  {
    var issues := DuplicatePcis(sites);
    var fields := seq(|issues|, i requires 0 <= i < |issues| => PciField(issues[i].at));
    if f in fields {
      var i :| 0 <= i < |fields| && fields[i] == f;
      assert Reported(issues, issues[i].at);
    }
    if p :| Reported(issues, p) && f == PciField(p) {
      var i :| 0 <= i < |issues| && issues[i].at == p;
      assert fields[i] == f;
    }
  }

  lemma RepeatsIff(doc: Tree, p: Position)
    requires doc.Obj? && PciTable(doc).Some?
    ensures Reported(DuplicatePcis(PciTable(doc).value), p) <==> RepeatsPci(doc, p)
  {
    var sites := PciTable(doc).value;
    ReportedIff(sites, p);
    forall q, pci ensures Has(sites, q, pci) <==> UsesPci(doc, q, pci) {
      TableMeans(doc, q, pci);
    }
  }

  /** The PCI check names exactly the cells whose PCI an earlier cell has. */
  lemma PciIssuesMean(doc: Tree, f: string)
    requires doc.Obj? && PciIssues(doc).Some?
    ensures f in PciIssues(doc).value <==> exists p :: RepeatsPci(doc, p) && f == PciField(p)
  {
    ReportedFields(PciTable(doc).value, f);
    forall p ensures Reported(DuplicatePcis(PciTable(doc).value), p) <==> RepeatsPci(doc, p) {
      RepeatsIff(doc, p);
    }
  }

  /** The overlap check names the services prefix, exactly when it shares an address with the UE prefix. */
  lemma OverlapIssuesMean(doc: Tree)
    requires doc.Obj? && OverlapIssues(doc).Some?
    ensures OverlapIssues(doc).value == if DisjointPrefixes(doc) then [] else [SERVICES_FIELD]
  {
    var allocations := ValueAt(doc, "allocations");
    var ue := PrefixOf(ValueAt(ValueAt(allocations, "ue_prefix"), "v4"));
    var services := PrefixOf(ValueAt(allocations, "services_prefix"));
    if ue.Some? && services.Some? {
      OverlapsIffShare(ue.value, services.value);
    }
  }

  lemma DistinctIff(doc: Tree)
    requires doc.Obj? && PciTable(doc).Some?
    ensures DuplicatePcis(PciTable(doc).value) == [] <==> DistinctPcis(doc)
  {
    var sites := PciTable(doc).value;
    DuplicatesExact(sites);
    SilentIffUnique(sites, DuplicatePcis(sites));
    forall q, pci ensures Has(sites, q, pci) <==> UsesPci(doc, q, pci) {
      TableMeans(doc, q, pci);
    }
  }

  /** A document passes both checks exactly when they can read it, no two of its cells have the same PCI and its
      prefixes are disjoint. */
  lemma PlanCleanIff(doc: Tree)
    requires doc.Obj?
    ensures PlanIssues(doc).Some? <==> Readable(doc)
    ensures PlanIssues(doc) == Some([]) <==> Readable(doc) && DistinctPcis(doc) && DisjointPrefixes(doc)
  {
    if Readable(doc) {
      DistinctIff(doc);
      OverlapIssuesMean(doc);
      var pcis, overlap := PciIssues(doc).value, OverlapIssues(doc).value;
      assert |pcis| == |DuplicatePcis(PciTable(doc).value)|;
      assert |PlanIssues(doc).value| == |pcis| + |overlap|;
    }
  }

  /** Prefixes written as address and length are disjoint as prefixes of those. */
  lemma WrittenPrefixes(doc: Tree, a: nat, len: nat, b: nat, other: nat)
    requires a < SPACE && len <= 32 && b < SPACE && other <= 32
    requires ValueAt(ValueAt(ValueAt(doc, "allocations"), "ue_prefix"), "v4") == Str(NetText(a, len))
    requires ValueAt(ValueAt(doc, "allocations"), "services_prefix") == Str(NetText(b, other))
    ensures IsNet(NetOf(a, len)) && IsNet(NetOf(b, other))
    ensures DisjointPrefixes(doc) <==> !Share(NetOf(a, len), NetOf(b, other))
  {
    NetReads(a, len);
    NetReads(b, other);
    assert NetText(a, len) != "" && NetText(b, other) != "";
  }

  lemma NumberCancel(m: nat, n: nat, rest: string, other: string)
    requires rest != "" && other != "" && rest[0] == ']' && other[0] == ']'
    requires Digits(m) + rest == Digits(n) + other
    ensures m == n && rest == other
  {
    ValueOfDigits(m);
    ValueOfDigits(n);
    NumericCancel(Digits(m), Digits(n), rest, other);
  }

  /** A reported field says which cell it is. */
  lemma FieldNamesCell(p: Position, q: Position)
    requires PciField(p) == PciField(q)
    ensures p == q
  {
    var x, y := Digits(p.cell) + "].pci", Digits(q.cell) + "].pci";
    CatCancel("sites[", "sites[", Digits(p.site) + ("].cells[" + x), Digits(q.site) + ("].cells[" + y));
    NumberCancel(p.site, q.site, "].cells[" + x, "].cells[" + y);
    CatCancel("].cells[", "].cells[", x, y);
    NumberCancel(p.cell, q.cell, "].pci", "].pci");
  }
}
