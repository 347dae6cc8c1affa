/** The precedence-network builder (`_generate_realistic_predecessors`):
    for every catalog task, the list of incoming (predecessor id, relation
    type, lag) edges. Every random draw of the source is an explicit
    `TaskDraws` value whose ranges `ValidDraws` states. */
module Network {
  import opened ScheduleTypes
  import opened Precedence

  /** The task whose edges are overridden at the end of assembly. */
  const FinalTaskName: string := "Entrega final"

  /** Task id of catalog position `i`. */
  function Id(i: nat): int { i + 1 }

  // ---------------------------------------------------------------------
  // Grouping tasks by phase

  /** Positions among the first `n` catalog entries that belong to phase
      `p`, in catalog order. */
  function MembersUpTo(cat: seq<CatalogEntry>, p: Phase, n: nat): (m: seq<nat>)
    requires n <= |cat|
    ensures forall j :: 0 <= j < |m| ==> m[j] < n && cat[m[j]].phase == p
    ensures forall a, b :: 0 <= a < b < |m| ==> m[a] < m[b]
  {
    if n == 0 then []
    else MembersUpTo(cat, p, n - 1) + (if cat[n - 1].phase == p then [n - 1] else [])
  }

  /** The tasks of phase `p`, in catalog order (`phase_tasks[p]`). */
  function Members(cat: seq<CatalogEntry>, p: Phase): seq<nat>
  {
    MembersUpTo(cat, p, |cat|)
  }

  /** The position of catalog entry `i` within its phase (`task_idx`). */
  function PhasePos(cat: seq<CatalogEntry>, i: nat): nat
    requires i < |cat|
  {
    |MembersUpTo(cat, cat[i].phase, i)|
  }

  lemma {:induction false} MembersPrefix(cat: seq<CatalogEntry>, p: Phase, n: nat, m: nat)
    requires n <= m <= |cat|
    ensures |MembersUpTo(cat, p, n)| <= |MembersUpTo(cat, p, m)|
    ensures MembersUpTo(cat, p, n) == MembersUpTo(cat, p, m)[..|MembersUpTo(cat, p, n)|]
    decreases m - n
  {
    if n < m {
      MembersPrefix(cat, p, n, m - 1);
    }
  }

  /** Every task sits in its phase's member list at its phase position. */
  lemma MemberAt(cat: seq<CatalogEntry>, i: nat)
    requires i < |cat|
    ensures PhasePos(cat, i) < |Members(cat, cat[i].phase)|
    ensures Members(cat, cat[i].phase)[PhasePos(cat, i)] == i
  {
    MembersPrefix(cat, cat[i].phase, i + 1, |cat|);
  }

  /** Conversely, the `j`-th member of a phase has phase position `j`. */
  lemma PosOfMember(cat: seq<CatalogEntry>, p: Phase, j: nat)
    requires j < |Members(cat, p)|
    ensures PhasePos(cat, Members(cat, p)[j]) == j
  {
    var i := Members(cat, p)[j];
    MemberAt(cat, i);
  }

  /** The catalog lists the phases in order. */
  ghost predicate GroupedByPhase(cat: seq<CatalogEntry>)
  {
    forall a, b :: 0 <= a < b < |cat| ==> PhaseIndex(cat[a].phase) <= PhaseIndex(cat[b].phase)
  }

  /** The catalogs the builder is meant for: grouped by phase, and the task
      whose edges are overridden belongs to the last phase. */
  ghost predicate WellFormedCatalog(cat: seq<CatalogEntry>)
  {
    && GroupedByPhase(cat)
    && (forall i :: 0 <= i < |cat| && cat[i].name == FinalTaskName ==> cat[i].phase == Commissioning)
    && (forall i :: 0 <= i < |cat| ==> cat[i].duration >= 1 && cat[i].cost >= 0)
  }

  /** In a grouped catalog, every task of an earlier phase comes first. */
  lemma EarlierPhaseMembersBefore(cat: seq<CatalogEntry>, q: Phase, i: nat)
    requires GroupedByPhase(cat)
    requires i < |cat| && PhaseIndex(q) < PhaseIndex(cat[i].phase)
    ensures forall m :: m in Members(cat, q) ==> m < i
  {
    forall m | m in Members(cat, q)
      ensures m < i
    {
      assert cat[m].phase == q;
    }
  }

  /** The last `n` elements of `s` (`s[-n:]` for 0 < n). */
  function LastN(s: seq<nat>, n: nat): (r: seq<nat>)
    ensures |r| == Min(n, |s|)
    ensures forall x :: x in r ==> x in s
  {
    s[|s| - Min(n, |s|)..]
  }

  /** `xs[-n:]` is the tail of `xs`: what it leaves out is a prefix. */
  lemma LastNIsSuffix(s: seq<nat>, n: nat)
    ensures var r := LastN(s, n);
      |r| == Min(n, |s|) && s == s[..|s| - |r|] + r
  {
    assert s == s[..|s| - Min(n, |s|)] + s[|s| - Min(n, |s|)..];
  }

  /** The tasks of the phase before task `i`'s phase (`prev_tasks`); empty
      for the first phase. */
  function PrevMembers(cat: seq<CatalogEntry>, i: nat): seq<nat>
    requires i < |cat|
  {
    var pi := PhaseIndex(cat[i].phase);
    if pi == 0 then [] else Members(cat, PhaseAt(pi - 1))
  }

  /** The tail a phase-opening task links to (`critical_tasks`): the last two
      tasks of "Acabados y Pruebas" for "Puesta en Marcha", the last two of
      "Instalaciones Eléctricas" for "Acabados y Pruebas", otherwise the last
      up to three tasks of the previous phase. */
  function Critical(cat: seq<CatalogEntry>, i: nat): seq<nat>
    requires i < |cat|
  {
    var p := cat[i].phase;
    if p == Commissioning then
      var a := Members(cat, FinishingAndTesting);
      if |a| > 0 then LastN(a, 2) else []
    else if p == FinishingAndTesting then
      var e := Members(cat, ElectricalInstallations);
      if |e| > 0 then LastN(e, 2) else []
    else LastN(PrevMembers(cat, i), 3)
  }

  /** The two named phases whose opening links are hand-authored. */
  predicate SpecialLink(p: Phase)
  {
    p == Commissioning || p == FinishingAndTesting
  }

  /** Lag range of a phase-opening link (`randint(1, 3)`, `randint(1, 2)`,
      `randint(0, 2)`). */
  function LinkLagLow(p: Phase): int { if SpecialLink(p) then 1 else 0 }
  function LinkLagHigh(p: Phase): int
  {
    if p == Commissioning then 3 else 2
  }

  // ---------------------------------------------------------------------
  // The random draws of one task

  /** One drawn predecessor: its position in the list it was sampled from,
      its relation type and its lag. */
  datatype Pick = Pick(pos: nat, rel: RelType, lag: int)

  /** One phase-opening link: position in `Critical`, and lag. */
  datatype LinkPick = LinkPick(pos: nat, lag: int)

  /** All draws the builder makes for one task: the lag of the sequential
      edge of positions 1 and 2, the intra-phase sample of later positions
      (empty when the 0.7 gate fails), the phase-opening links, and the
      cross-phase sample (empty when the parallel gate fails or zero edges
      are drawn). */
  datatype TaskDraws = TaskDraws(openLag: int, intra: seq<Pick>, link: seq<LinkPick>, cross: seq<Pick>)

  /** Lag range of an intra-phase edge: [-2, 3] for SS/FF, [0, 2] for FS/SF. */
  predicate IntraLagInRange(rel: RelType, lag: int)
  {
    if rel == SS || rel == FF then -2 <= lag <= 3 else 0 <= lag <= 2
  }

  predicate DistinctPicks(picks: seq<Pick>)
  {
    forall a, b :: 0 <= a < b < |picks| ==> picks[a].pos != picks[b].pos
  }

  predicate DistinctLinks(links: seq<LinkPick>)
  {
    forall a, b :: 0 <= a < b < |links| ==> links[a].pos != links[b].pos
  }

  /** `random.sample(tasks_in_phase[:k], 1 or 2)` with a type and lag per pick. */
  predicate ValidIntra(intra: seq<Pick>, k: nat)
  {
    && |intra| <= 2
    && DistinctPicks(intra)
    && (forall j :: 0 <= j < |intra| ==> intra[j].pos < k && IntraLagInRange(intra[j].rel, intra[j].lag))
  }

  /** The hand-authored phases link to every task of the tail, in order; the
      others sample one or two distinct tasks of it. */
  predicate ValidLink(link: seq<LinkPick>, critLen: nat, p: Phase)
  {
    && (forall j :: 0 <= j < |link| ==> link[j].pos < critLen && LinkLagLow(p) <= link[j].lag <= LinkLagHigh(p))
    && (SpecialLink(p) ==> |link| == critLen && forall j :: 0 <= j < |link| ==> link[j].pos == j)
    && (!SpecialLink(p) ==> |link| <= 2 && (critLen > 0 ==> |link| >= 1) && DistinctLinks(link))
  }

  /** At most one cross-phase edge, SS or FF, lag in [1, 5]. */
  predicate ValidCross(cross: seq<Pick>, prevLen: nat)
  {
    && |cross| <= 1
    && (forall j :: 0 <= j < |cross| ==>
          cross[j].pos < prevLen && (cross[j].rel == SS || cross[j].rel == FF) && 1 <= cross[j].lag <= 5)
  }

  predicate ValidDraws(cat: seq<CatalogEntry>, i: nat, d: TaskDraws)
    requires i < |cat|
  {
    && 0 <= d.openLag <= 1
    && ValidIntra(d.intra, PhasePos(cat, i))
    && ValidInter(cat, i, d)
  }

  /** The draws of the inter-phase edges: opening links and cross sample. */
  predicate ValidInter(cat: seq<CatalogEntry>, i: nat, d: TaskDraws)
    requires i < |cat|
  {
    ValidLink(d.link, |Critical(cat, i)|, cat[i].phase) && ValidCross(d.cross, |PrevMembers(cat, i)|)
  }

  // ---------------------------------------------------------------------
  // Assembling one task's edges

  /** One edge per pick, to the picked task of `from`. */
  function PickEdges(from: seq<nat>, picks: seq<Pick>): (r: seq<Edge>)
    requires forall j :: 0 <= j < |picks| ==> picks[j].pos < |from|
    ensures |r| == |picks|
    ensures forall j :: 0 <= j < |picks| ==> r[j] == Edge(Id(from[picks[j].pos]), picks[j].rel, picks[j].lag)
  {
    seq(|picks|, j requires 0 <= j < |picks| => Edge(Id(from[picks[j].pos]), picks[j].rel, picks[j].lag))
  }

  /** One FS edge per link, to the linked task of the tail. */
  function LinkEdges(crit: seq<nat>, link: seq<LinkPick>): (r: seq<Edge>)
    requires forall j :: 0 <= j < |link| ==> link[j].pos < |crit|
    ensures |r| == |link|
    ensures forall j :: 0 <= j < |link| ==> r[j] == Edge(Id(crit[link[j].pos]), FS, link[j].lag)
  {
    seq(|link|, j requires 0 <= j < |link| => Edge(Id(crit[link[j].pos]), FS, link[j].lag))
  }

  /** The edges that replace everything for the final task: FS, lag 1 on the
      task just before it, and FS, lag 0 on the last task of "Acabados y
      Pruebas". */
  function FinalEdges(cat: seq<CatalogEntry>, i: nat): seq<Edge>
    requires i < |cat|
  {
    var a := Members(cat, FinishingAndTesting);
    (if PhasePos(cat, i) > 0 then [Edge(Id(i) - 1, FS, 1)] else [])
    + (if |a| > 0 then [Edge(Id(a[|a| - 1]), FS, 0)] else [])
  }

  /** Intra-phase edges of task `i`. */
  function IntraEdges(cat: seq<CatalogEntry>, i: nat, d: TaskDraws): seq<Edge>
    requires i < |cat| && ValidIntra(d.intra, PhasePos(cat, i))
  {
    var k := PhasePos(cat, i);
    var members := Members(cat, cat[i].phase);
    MemberAt(cat, i);
    if k == 0 then []
    else if k <= 2 then [Edge(Id(members[k - 1]), FS, d.openLag)]
    else PickEdges(members, d.intra)
  }

  /** Inter-phase edges of task `i`: the opening links of a phase's first
      task, or the cross-phase sample of the others. */
  function InterEdges(cat: seq<CatalogEntry>, i: nat, d: TaskDraws): seq<Edge>
    requires i < |cat| && ValidInter(cat, i, d)
  {
    var prev := PrevMembers(cat, i);
    if PhaseIndex(cat[i].phase) > 0 && |prev| > 0 then
      if PhasePos(cat, i) == 0 then LinkEdges(Critical(cat, i), d.link)
      else PickEdges(prev, d.cross)
    else []
  }

  /** The edge list before the fan-in cap. */
  function Assembled(cat: seq<CatalogEntry>, i: nat, d: TaskDraws): seq<Edge>
    requires i < |cat| && ValidDraws(cat, i, d)
  {
    if cat[i].name == FinalTaskName then FinalEdges(cat, i)
    else IntraEdges(cat, i, d) + InterEdges(cat, i, d)
  }

  // ---------------------------------------------------------------------
  // The fan-in cap

  function FsEdges(es: seq<Edge>): (r: seq<Edge>)
    ensures |r| <= |es|
  {
    if es == [] then [] else (if es[0].rel == FS then [es[0]] else []) + FsEdges(es[1..])
  }

  function OtherEdges(es: seq<Edge>): (r: seq<Edge>)
    ensures |r| == |es| - |FsEdges(es)|
  {
    if es == [] then [] else (if es[0].rel != FS then [es[0]] else []) + OtherEdges(es[1..])
  }

  /** The FS filter keeps exactly the FS edges, the other filter exactly
      the rest. */
  lemma {:induction false} FilterMembers(es: seq<Edge>)
    ensures forall e :: e in FsEdges(es) <==> e in es && e.rel == FS
    ensures forall e :: e in OtherEdges(es) <==> e in es && e.rel != FS
  {
    if es != [] {
      FilterMembers(es[1..]);
      assert es == [es[0]] + es[1..];
    }
  }

  lemma FilterConcat(a: seq<Edge>, b: seq<Edge>)
    ensures FsEdges(a + b) == FsEdges(a) + FsEdges(b)
    ensures OtherEdges(a + b) == OtherEdges(a) + OtherEdges(b)
  {
    FsConcat(a, b);
    OtherConcat(a, b);
  }

  lemma {:induction false} FsConcat(a: seq<Edge>, b: seq<Edge>)
    ensures FsEdges(a + b) == FsEdges(a) + FsEdges(b)
  {
    if a == [] {
      assert a + b == b;
    } else {
      var h := if a[0].rel == FS then [a[0]] else [];
      assert (a + b)[0] == a[0];
      assert (a + b)[1..] == a[1..] + b;
      FsConcat(a[1..], b);
      assert FsEdges(a + b) == h + (FsEdges(a[1..]) + FsEdges(b));
    }
  }

  lemma {:induction false} OtherConcat(a: seq<Edge>, b: seq<Edge>)
    ensures OtherEdges(a + b) == OtherEdges(a) + OtherEdges(b)
  {
    if a == [] {
      assert a + b == b;
    } else {
      var h := if a[0].rel != FS then [a[0]] else [];
      assert (a + b)[0] == a[0];
      assert (a + b)[1..] == a[1..] + b;
      OtherConcat(a[1..], b);
      assert OtherEdges(a + b) == h + (OtherEdges(a[1..]) + OtherEdges(b));
    }
  }

  /** `random.sample(predecessors, cap)`: `cap` distinct positions. */
  predicate ValidSample(sample: seq<nat>, n: nat, cap: nat)
  {
    && |sample| == cap
    && (forall j :: 0 <= j < |sample| ==> sample[j] < n)
    && (forall a, b :: 0 <= a < b < |sample| ==> sample[a] != sample[b])
  }

  /** The fan-in cap: above `cap` edges, keep every FS edge and fill up with
      the first non-FS edges; if the FS edges alone exceed the cap, keep a
      random sample of the whole list. */
  function CapFanIn(es: seq<Edge>, cap: nat, sample: seq<nat>): seq<Edge>
    requires |es| > cap && |FsEdges(es)| > cap ==> ValidSample(sample, |es|, cap)
  {
    if |es| <= cap then es
    else if |FsEdges(es)| <= cap then
      FsEdges(es) + OtherEdges(es)[..cap - |FsEdges(es)|]
    else seq(cap, j requires 0 <= j < cap => es[sample[j]])
  }

  /** The cap's promise: the result has min(|es|, cap) edges, all taken
      from `es`; when the FS edges fit, all of them survive in their order,
      ahead of the kept non-FS edges, which are the first ones of `es`. */
  lemma CapFanInSpec(es: seq<Edge>, cap: nat, sample: seq<nat>)
    requires |es| > cap && |FsEdges(es)| > cap ==> ValidSample(sample, |es|, cap)
    ensures |CapFanIn(es, cap, sample)| == Min(|es|, cap)
    ensures forall e :: e in CapFanIn(es, cap, sample) ==> e in es
    ensures |FsEdges(es)| <= cap ==> FsEdges(CapFanIn(es, cap, sample)) == FsEdges(es)
    ensures |FsEdges(es)| <= cap < |es| ==>
              && (forall j :: 0 <= j < |FsEdges(es)| ==> CapFanIn(es, cap, sample)[j].rel == FS)
              && OtherEdges(CapFanIn(es, cap, sample)) == OtherEdges(es)[..cap - |FsEdges(es)|]
  {
    if |es| > cap {
      if |FsEdges(es)| <= cap {
        CapTruncated(es, cap);
      } else {
        CapSampled(es, cap, sample);
      }
    }
  }

  lemma CapSampled(es: seq<Edge>, cap: nat, sample: seq<nat>)
    requires cap < |FsEdges(es)|
    requires ValidSample(sample, |es|, cap)
    ensures |CapFanIn(es, cap, sample)| == cap
    ensures forall e :: e in CapFanIn(es, cap, sample) ==> e in es
  {
    var r := CapFanIn(es, cap, sample);
    forall e | e in r ensures e in es {
      var j :| 0 <= j < |r| && r[j] == e;
      assert r[j] == es[sample[j]];
    }
  }

  lemma CapTruncated(es: seq<Edge>, cap: nat)
    requires |FsEdges(es)| <= cap < |es|
    ensures var r := CapFanIn(es, cap, []);
      && (forall e :: e in r ==> e in es)
      && FsEdges(r) == FsEdges(es)
      && (forall j :: 0 <= j < |FsEdges(es)| ==> r[j].rel == FS)
      && OtherEdges(r) == OtherEdges(es)[..cap - |FsEdges(es)|]
  {
    var fs, other := FsEdges(es), OtherEdges(es)[..cap - |FsEdges(es)|];
    assert CapFanIn(es, cap, []) == fs + other;
    CapMembers(es, other);
    CapKeepsFs(es, other);
    CapKeepsOthers(es, cap - |fs|);
  }

  lemma CapMembers(es: seq<Edge>, other: seq<Edge>)
    requires |other| <= |OtherEdges(es)| && other == OtherEdges(es)[..|other|]
    ensures forall e :: e in FsEdges(es) + other ==> e in es
  {
    FilterMembers(es);
    forall e | e in FsEdges(es) + other ensures e in es {
      if e !in FsEdges(es) {
        assert e in OtherEdges(es);
      }
    }
  }

  lemma CapKeepsFs(es: seq<Edge>, other: seq<Edge>)
    requires |other| <= |OtherEdges(es)| && other == OtherEdges(es)[..|other|]
    ensures FsEdges(FsEdges(es) + other) == FsEdges(es)
    ensures forall j :: 0 <= j < |FsEdges(es)| ==> (FsEdges(es) + other)[j].rel == FS
  {
    var fs := FsEdges(es);
    FsConcat(fs, other);
    FilteredUniform(es, other);
    AllFsFilters(fs);
    NoFsFilters(other);
    assert FsEdges(fs + other) == fs + [];
  }

  lemma CapKeepsOthers(es: seq<Edge>, k: nat)
    requires k <= |OtherEdges(es)|
    ensures OtherEdges(FsEdges(es) + OtherEdges(es)[..k]) == OtherEdges(es)[..k]
  {
    var fs, other := FsEdges(es), OtherEdges(es)[..k];
    OtherConcat(fs, other);
    FilteredUniform(es, other);
    AllFsFilters(fs);
    NoFsFilters(other);
    assert OtherEdges(fs + other) == [] + other;
  }

  /** The FS filter's output is all FS; a prefix of the other filter's
      output has no FS edge. */
  lemma FilteredUniform(es: seq<Edge>, other: seq<Edge>)
    requires |other| <= |OtherEdges(es)| && other == OtherEdges(es)[..|other|]
    ensures forall j :: 0 <= j < |FsEdges(es)| ==> FsEdges(es)[j].rel == FS
    ensures forall j :: 0 <= j < |other| ==> other[j].rel != FS
  {
    FilterMembers(es);
    var fs := FsEdges(es);
    forall j | 0 <= j < |fs| ensures fs[j].rel == FS {
      assert fs[j] in fs;
    }
    forall j | 0 <= j < |other| ensures other[j].rel != FS {
      assert other[j] == OtherEdges(es)[j];
      assert OtherEdges(es)[j] in OtherEdges(es);
    }
  }

  lemma {:induction false} AllFsFilters(s: seq<Edge>)
    requires forall j :: 0 <= j < |s| ==> s[j].rel == FS
    ensures FsEdges(s) == s && OtherEdges(s) == []
  {
    if s != [] {
      var t := s[1..];
      assert forall j :: 0 <= j < |t| ==> t[j] == s[j + 1];
      AllFsFilters(t);
      assert s == [s[0]] + t;
    }
  }

  lemma {:induction false} NoFsFilters(s: seq<Edge>)
    requires forall j :: 0 <= j < |s| ==> s[j].rel != FS
    ensures FsEdges(s) == [] && OtherEdges(s) == s
  {
    if s != [] {
      var t := s[1..];
      assert forall j :: 0 <= j < |t| ==> t[j] == s[j + 1];
      NoFsFilters(t);
      assert s == [s[0]] + t;
    }
  }

  // ---------------------------------------------------------------------
  // Shape of the assembled lists

  lemma IntraEdgesShape(cat: seq<CatalogEntry>, i: nat, d: TaskDraws)
    requires i < |cat| && ValidIntra(d.intra, PhasePos(cat, i))
    ensures |IntraEdges(cat, i, d)| <= 2
    ensures PhasePos(cat, i) == 0 ==> IntraEdges(cat, i, d) == []
  {
  }

  /** The opening links of a first task are at most two FS edges; the other
      tasks' inter-phase edges are SS or FF. */
  lemma InterEdgesShape(cat: seq<CatalogEntry>, i: nat, d: TaskDraws)
    requires i < |cat| && ValidInter(cat, i, d)
    ensures PhasePos(cat, i) == 0 ==> |InterEdges(cat, i, d)| <= 2
    ensures PhasePos(cat, i) == 0 ==> forall e :: e in InterEdges(cat, i, d) ==> e.rel == FS
    ensures PhasePos(cat, i) > 0 ==> |InterEdges(cat, i, d)| <= 1
    ensures PhasePos(cat, i) > 0 ==> forall e :: e in InterEdges(cat, i, d) ==> e.rel == SS || e.rel == FF
  {
    if PhaseIndex(cat[i].phase) > 0 && |PrevMembers(cat, i)| > 0 {
      if PhasePos(cat, i) == 0 {
        CriticalNonEmpty(cat, i);
        assert InterEdges(cat, i, d) == LinkEdges(Critical(cat, i), d.link);
        LinksShape(Critical(cat, i), d.link, cat[i].phase);
      } else {
        assert InterEdges(cat, i, d) == PickEdges(PrevMembers(cat, i), d.cross);
        CrossShape(PrevMembers(cat, i), d.cross);
      }
    } else {
      assert InterEdges(cat, i, d) == [];
    }
  }

  lemma LinksShape(crit: seq<nat>, link: seq<LinkPick>, p: Phase)
    requires |crit| <= 3 && (SpecialLink(p) ==> |crit| <= 2)
    requires ValidLink(link, |crit|, p)
    ensures |LinkEdges(crit, link)| <= 2
    ensures forall e :: e in LinkEdges(crit, link) ==> e.rel == FS
  {
    var es := LinkEdges(crit, link);
    forall e | e in es ensures e.rel == FS {
      var j :| 0 <= j < |es| && es[j] == e;
    }
  }

  lemma CrossShape(prev: seq<nat>, cross: seq<Pick>)
    requires ValidCross(cross, |prev|)
    ensures |PickEdges(prev, cross)| <= 1
    ensures forall e :: e in PickEdges(prev, cross) ==> e.rel == SS || e.rel == FF
  {
    var es := PickEdges(prev, cross);
    forall e | e in es ensures e.rel == SS || e.rel == FF {
      var j :| 0 <= j < |es| && es[j] == e;
    }
  }

  /** At most two FS edges are ever assembled for one task. */
  lemma AssembledFsBound(cat: seq<CatalogEntry>, i: nat, d: TaskDraws)
    requires i < |cat| && ValidDraws(cat, i, d)
    ensures |FsEdges(Assembled(cat, i, d))| <= 2
  {
    if cat[i].name != FinalTaskName {
      var intra, inter := IntraEdges(cat, i, d), InterEdges(cat, i, d);
      FilterConcat(intra, inter);
      IntraEdgesShape(cat, i, d);
      InterEdgesShape(cat, i, d);
      if PhasePos(cat, i) > 0 {
        FilterMembers(inter);
        assert |FsEdges(inter)| == 0 by {
          forall e | e in FsEdges(inter) ensures false {
          }
        }
      }
    }
  }

  lemma MaxPredecessorsAtLeastTwo(style: NetworkStyle)
    ensures MaxPredecessors(style) >= 2
  {
  }

  /** The final edge list of task `i` (`task["predecessors"]`). */
  function TaskEdges(cat: seq<CatalogEntry>, style: NetworkStyle, i: nat, d: TaskDraws): seq<Edge>
    requires i < |cat| && ValidDraws(cat, i, d)
  {
    var es := Assembled(cat, i, d);
    AssembledFsBound(cat, i, d);
    MaxPredecessorsAtLeastTwo(style);
    CapFanIn(es, MaxPredecessors(style), [])
  }

  /** The edge list of task `i`, given every task's draws. */
  function EdgesOf(cat: seq<CatalogEntry>, style: NetworkStyle, draws: seq<TaskDraws>, i: nat): seq<Edge>
    requires |draws| == |cat|
    requires forall i :: 0 <= i < |cat| ==> ValidDraws(cat, i, draws[i])
    requires i < |cat|
  {
    TaskEdges(cat, style, i, draws[i])
  }

  /** Every task's edge list. */
  ghost function AllEdges(cat: seq<CatalogEntry>, style: NetworkStyle, draws: seq<TaskDraws>): (t: seq<seq<Edge>>)
    requires |draws| == |cat|
    requires forall i :: 0 <= i < |cat| ==> ValidDraws(cat, i, draws[i])
    ensures |t| == |cat| && forall i :: 0 <= i < |cat| ==> t[i] == EdgesOf(cat, style, draws, i)
  {
    seq(|cat|, i requires 0 <= i < |cat| => EdgesOf(cat, style, draws, i))
  }

  /** Task `i` comes before position `taskIdx` of phase number
      `phaseIdx` in the builder's phase-by-phase order. */
  ghost predicate Before(cat: seq<CatalogEntry>, i: nat, phaseIdx: nat, phase: Phase, taskIdx: nat)
    requires i < |cat|
  {
    PhaseIndex(cat[i].phase) < phaseIdx || (cat[i].phase == phase && PhasePos(cat, i) < taskIdx)
  }

  /** The tasks before that position have their edges; the others none yet. */
  ghost predicate Filled(cat: seq<CatalogEntry>, preds: seq<seq<Edge>>, target: seq<seq<Edge>>,
                         phaseIdx: nat, phase: Phase, taskIdx: nat)
  {
    |preds| == |cat| == |target| &&
    forall i :: 0 <= i < |cat| ==> preds[i] == if Before(cat, i, phaseIdx, phase, taskIdx) then target[i] else []
  }

  lemma FillOne(cat: seq<CatalogEntry>, preds: seq<seq<Edge>>, target: seq<seq<Edge>>,
                phaseIdx: nat, phase: Phase, taskIdx: nat)
    requires phaseIdx < PhaseCount && phase == PhaseAt(phaseIdx) && taskIdx < |Members(cat, phase)|
    requires Filled(cat, preds, target, phaseIdx, phase, taskIdx)
    ensures Members(cat, phase)[taskIdx] < |cat|
    ensures Filled(cat, preds[Members(cat, phase)[taskIdx] := target[Members(cat, phase)[taskIdx]]],
                   target, phaseIdx, phase, taskIdx + 1)
  {
    var task := Members(cat, phase)[taskIdx];
    PosOfMember(cat, phase, taskIdx);
    var next := preds[task := target[task]];
    forall j | 0 <= j < |cat|
      ensures next[j] == if Before(cat, j, phaseIdx, phase, taskIdx + 1) then target[j] else []
    {
      if j != task && cat[j].phase == phase && PhasePos(cat, j) == taskIdx {
        MemberAt(cat, j);
      }
      PhaseIndexInjective(cat[j].phase, phase);
    }
  }

  lemma FillPhase(cat: seq<CatalogEntry>, preds: seq<seq<Edge>>, target: seq<seq<Edge>>, phaseIdx: nat)
    requires phaseIdx < PhaseCount
    requires Filled(cat, preds, target, phaseIdx, PhaseAt(phaseIdx), |Members(cat, PhaseAt(phaseIdx))|)
    ensures Filled(cat, preds, target, phaseIdx + 1, PhaseAt(0), 0)
  {
    var phase := PhaseAt(phaseIdx);
    forall j | 0 <= j < |cat|
      ensures Before(cat, j, phaseIdx + 1, PhaseAt(0), 0) == Before(cat, j, phaseIdx, phase, |Members(cat, phase)|)
    {
      PhaseIndexInjective(cat[j].phase, phase);
      MemberAt(cat, j);
    }
  }

  lemma FilledAll(cat: seq<CatalogEntry>, preds: seq<seq<Edge>>, target: seq<seq<Edge>>)
    requires Filled(cat, preds, target, PhaseCount, PhaseAt(0), 0)
    ensures preds == target
  {
    forall i | 0 <= i < |cat| ensures preds[i] == target[i] {
      assert Before(cat, i, PhaseCount, PhaseAt(0), 0);
    }
  }

  /** The builder: walks the phases in order and, within each phase, its
      tasks in catalog order, writing each task's edge list once. */
  method BuildPredecessors(cat: seq<CatalogEntry>, style: NetworkStyle, draws: seq<TaskDraws>)
    returns (preds: seq<seq<Edge>>)
    requires |draws| == |cat|
    requires forall i :: 0 <= i < |cat| ==> ValidDraws(cat, i, draws[i])
    ensures |preds| == |cat|
    ensures forall i :: 0 <= i < |cat| ==> preds[i] == TaskEdges(cat, style, i, draws[i])
  {
    ghost var target := AllEdges(cat, style, draws);
    preds := seq(|cat|, _ => []);
    assert Filled(cat, preds, target, 0, PhaseAt(0), 0);
    var phaseIdx := 0;
    while phaseIdx < PhaseCount
      invariant 0 <= phaseIdx <= PhaseCount
      invariant |preds| == |cat|
      invariant Filled(cat, preds, target, phaseIdx, PhaseAt(0), 0)
    {
      preds := BuildPhase(cat, style, draws, preds, phaseIdx, target);
      phaseIdx := phaseIdx + 1;
    }
    FilledAll(cat, preds, target);
  }

  /** One phase of the builder: its tasks, in catalog order. */
  method BuildPhase(cat: seq<CatalogEntry>, style: NetworkStyle, draws: seq<TaskDraws>,
                    preds: seq<seq<Edge>>, phaseIdx: nat, ghost target: seq<seq<Edge>>)
    returns (next: seq<seq<Edge>>)
    requires |draws| == |cat|
    requires forall i :: 0 <= i < |cat| ==> ValidDraws(cat, i, draws[i])
    requires phaseIdx < PhaseCount
    requires |target| == |cat| && forall i :: 0 <= i < |cat| ==> target[i] == EdgesOf(cat, style, draws, i)
    requires Filled(cat, preds, target, phaseIdx, PhaseAt(0), 0)
    ensures Filled(cat, next, target, phaseIdx + 1, PhaseAt(0), 0)
  {
    var phase := PhaseAt(phaseIdx);
    var tasksInPhase := Members(cat, phase);
    next := preds;
    var taskIdx := 0;
    while taskIdx < |tasksInPhase|
      invariant 0 <= taskIdx <= |tasksInPhase|
      invariant Filled(cat, next, target, phaseIdx, phase, taskIdx)
    {
      var task := tasksInPhase[taskIdx];
      FillOne(cat, next, target, phaseIdx, phase, taskIdx);
      next := next[task := EdgesOf(cat, style, draws, task)];
      taskIdx := taskIdx + 1;
    }
    FillPhase(cat, next, target, phaseIdx);
  }

  // ---------------------------------------------------------------------
  // What the builder guarantees about every edge

  /** An edge of task `i` points to a smaller id, FS/SF lags are
      non-negative (at most 3), intra-phase SS/FF lags lie in [-2, 3] and
      cross-phase SS/FF lags in [1, 5]. */
  ghost predicate WellShapedEdge(cat: seq<CatalogEntry>, i: nat, e: Edge)
    requires i < |cat|
  {
    && 1 <= e.pred <= i
    && (e.rel == FS || e.rel == SF ==> 0 <= e.lag <= 3)
    && (e.rel == SS || e.rel == FF ==>
          if cat[e.pred - 1].phase == cat[i].phase then -2 <= e.lag <= 3 else 1 <= e.lag <= 5)
  }

  /** Sampled intra-phase edges point into the task's own phase, before it. */
  lemma IntraPicksWellShaped(cat: seq<CatalogEntry>, i: nat, members: seq<nat>, k: nat, picks: seq<Pick>)
    requires i < |cat| && k < |members| && members[k] == i
    requires forall j :: 0 <= j < |members| ==> members[j] < |cat| && cat[members[j]].phase == cat[i].phase
    requires forall a, b :: 0 <= a < b < |members| ==> members[a] < members[b]
    requires ValidIntra(picks, k)
    ensures forall e :: e in PickEdges(members, picks) ==> WellShapedEdge(cat, i, e)
  {
    var es := PickEdges(members, picks);
    forall e | e in es ensures WellShapedEdge(cat, i, e) {
      var j :| 0 <= j < |es| && es[j] == e;
      assert members[picks[j].pos] < members[k];
    }
  }

  lemma IntraWellShaped(cat: seq<CatalogEntry>, i: nat, d: TaskDraws)
    requires i < |cat| && 0 <= d.openLag <= 1 && ValidIntra(d.intra, PhasePos(cat, i))
    ensures forall e :: e in IntraEdges(cat, i, d) ==> WellShapedEdge(cat, i, e)
  {
    var k := PhasePos(cat, i);
    var members := Members(cat, cat[i].phase);
    MemberAt(cat, i);
    if k == 0 {
      assert IntraEdges(cat, i, d) == [];
    } else if k <= 2 {
      IntraOpening(cat, i, d);
      assert members[k - 1] < members[k];
      assert WellShapedEdge(cat, i, Edge(Id(members[k - 1]), FS, d.openLag));
    } else {
      assert IntraEdges(cat, i, d) == PickEdges(members, d.intra);
      IntraPicksWellShaped(cat, i, members, k, d.intra);
    }
  }

  /** Sampled cross-phase edges point into an earlier phase. */
  lemma CrossPicksWellShaped(cat: seq<CatalogEntry>, i: nat, prev: seq<nat>, picks: seq<Pick>)
    requires i < |cat|
    requires forall j :: 0 <= j < |prev| ==> prev[j] < i && cat[prev[j]].phase != cat[i].phase
    requires ValidCross(picks, |prev|)
    ensures forall e :: e in PickEdges(prev, picks) ==> WellShapedEdge(cat, i, e)
  {
    var es := PickEdges(prev, picks);
    forall e | e in es ensures WellShapedEdge(cat, i, e) {
      var j :| 0 <= j < |es| && es[j] == e;
    }
  }

  /** Opening links are FS edges into an earlier phase. */
  lemma LinksWellShaped(cat: seq<CatalogEntry>, i: nat, crit: seq<nat>, link: seq<LinkPick>)
    requires i < |cat|
    requires forall m :: m in crit ==> m < i
    requires ValidLink(link, |crit|, cat[i].phase)
    ensures forall e :: e in LinkEdges(crit, link) ==> WellShapedEdge(cat, i, e)
  {
    var es := LinkEdges(crit, link);
    forall e | e in es ensures WellShapedEdge(cat, i, e) {
      var j :| 0 <= j < |es| && es[j] == e;
      assert crit[link[j].pos] in crit;
    }
  }

  lemma InterWellShaped(cat: seq<CatalogEntry>, i: nat, d: TaskDraws)
    requires WellFormedCatalog(cat)
    requires i < |cat| && ValidInter(cat, i, d)
    ensures forall e :: e in InterEdges(cat, i, d) ==> WellShapedEdge(cat, i, e)
  {
    if PhaseIndex(cat[i].phase) > 0 && |PrevMembers(cat, i)| > 0 {
      if PhasePos(cat, i) == 0 {
        assert InterEdges(cat, i, d) == LinkEdges(Critical(cat, i), d.link);
        OpeningWellShaped(cat, i, d.link);
      } else {
        assert InterEdges(cat, i, d) == PickEdges(PrevMembers(cat, i), d.cross);
        CrossWellShaped(cat, i, d.cross);
      }
    } else {
      assert InterEdges(cat, i, d) == [];
    }
  }

  /** The opening links of a phase's first task reach back into earlier phases. */
  lemma OpeningWellShaped(cat: seq<CatalogEntry>, i: nat, link: seq<LinkPick>)
    requires WellFormedCatalog(cat)
    requires i < |cat| && PhaseIndex(cat[i].phase) > 0
    requires ValidLink(link, |Critical(cat, i)|, cat[i].phase)
    ensures forall e :: e in LinkEdges(Critical(cat, i), link) ==> WellShapedEdge(cat, i, e)
  {
    EarlierPhaseMembersBefore(cat, PhaseAt(PhaseIndex(cat[i].phase) - 1), i);
    if cat[i].phase == Commissioning {
      EarlierPhaseMembersBefore(cat, FinishingAndTesting, i);
    } else if cat[i].phase == FinishingAndTesting {
      EarlierPhaseMembersBefore(cat, ElectricalInstallations, i);
    }
    LinksWellShaped(cat, i, Critical(cat, i), link);
  }

  /** Cross-phase picks reach back into the previous phase. */
  lemma CrossWellShaped(cat: seq<CatalogEntry>, i: nat, cross: seq<Pick>)
    requires WellFormedCatalog(cat)
    requires i < |cat| && PhaseIndex(cat[i].phase) > 0
    requires ValidCross(cross, |PrevMembers(cat, i)|)
    ensures forall e :: e in PickEdges(PrevMembers(cat, i), cross) ==> WellShapedEdge(cat, i, e)
  {
    var prev := PrevMembers(cat, i);
    EarlierPhaseMembersBefore(cat, PhaseAt(PhaseIndex(cat[i].phase) - 1), i);
    forall j | 0 <= j < |prev| ensures prev[j] < i && cat[prev[j]].phase != cat[i].phase {
      assert prev[j] in prev;
    }
    CrossPicksWellShaped(cat, i, prev, cross);
  }

  lemma FinalWellShaped(cat: seq<CatalogEntry>, i: nat)
    requires WellFormedCatalog(cat)
    requires i < |cat| && cat[i].name == FinalTaskName
    ensures forall e :: e in FinalEdges(cat, i) ==> WellShapedEdge(cat, i, e)
  {
    MemberAt(cat, i);
    EarlierPhaseMembersBefore(cat, FinishingAndTesting, i);
    var a := Members(cat, FinishingAndTesting);
    if |a| > 0 {
      assert a[|a| - 1] in a;
    }
    if PhasePos(cat, i) > 0 {
      var members := Members(cat, cat[i].phase);
      assert members[0] < members[PhasePos(cat, i)];
    }
  }

  /** Edge direction and lag ranges of every edge the builder emits. */
  lemma TaskEdgesWellShaped(cat: seq<CatalogEntry>, style: NetworkStyle, i: nat, d: TaskDraws)
    requires WellFormedCatalog(cat)
    requires i < |cat| && ValidDraws(cat, i, d)
    ensures forall e :: e in TaskEdges(cat, style, i, d) ==> WellShapedEdge(cat, i, e)
  {
    AssembledFsBound(cat, i, d);
    MaxPredecessorsAtLeastTwo(style);
    CapFanInSpec(Assembled(cat, i, d), MaxPredecessors(style), []);
    if cat[i].name == FinalTaskName {
      FinalWellShaped(cat, i);
    } else {
      IntraWellShaped(cat, i, d);
      InterWellShaped(cat, i, d);
    }
  }

  /** The fan-in cap always holds, and it never drops an FS edge: when it
      truncates, the FS edges come first, in their assembled order. */
  lemma TaskEdgesFanIn(cat: seq<CatalogEntry>, style: NetworkStyle, i: nat, d: TaskDraws)
    requires i < |cat| && ValidDraws(cat, i, d)
    ensures |TaskEdges(cat, style, i, d)| <= MaxPredecessors(style)
    ensures FsEdges(TaskEdges(cat, style, i, d)) == FsEdges(Assembled(cat, i, d))
    ensures |Assembled(cat, i, d)| > MaxPredecessors(style) ==>
      forall j :: 0 <= j < |FsEdges(Assembled(cat, i, d))| ==> TaskEdges(cat, style, i, d)[j].rel == FS
  {
    AssembledFsBound(cat, i, d);
    MaxPredecessorsAtLeastTwo(style);
    CapFanInSpec(Assembled(cat, i, d), MaxPredecessors(style), []);
  }

  /** "Entrega final" ends with exactly its two overriding FS edges: the cap
      never truncates them. */
  lemma FinalTaskEdges(cat: seq<CatalogEntry>, style: NetworkStyle, i: nat, d: TaskDraws)
    requires i < |cat| && ValidDraws(cat, i, d)
    requires cat[i].name == FinalTaskName && PhasePos(cat, i) > 0
    requires |Members(cat, FinishingAndTesting)| > 0
    ensures var a := Members(cat, FinishingAndTesting);
      TaskEdges(cat, style, i, d) == [Edge(i, FS, 1), Edge(Id(a[|a| - 1]), FS, 0)]
  {
    MaxPredecessorsAtLeastTwo(style);
  }

  /** An assembled list the cap lets through unchanged. */
  lemma TaskEdgesUncapped(cat: seq<CatalogEntry>, style: NetworkStyle, i: nat, d: TaskDraws)
    requires i < |cat| && ValidDraws(cat, i, d)
    requires |Assembled(cat, i, d)| <= 2
    ensures TaskEdges(cat, style, i, d) == Assembled(cat, i, d)
  {
    MaxPredecessorsAtLeastTwo(style);
  }

  lemma IntraOpening(cat: seq<CatalogEntry>, i: nat, d: TaskDraws)
    requires i < |cat| && ValidIntra(d.intra, PhasePos(cat, i))
    requires 1 <= PhasePos(cat, i) <= 2
    ensures var members := Members(cat, cat[i].phase);
      PhasePos(cat, i) - 1 < |members| &&
      IntraEdges(cat, i, d) == [Edge(Id(members[PhasePos(cat, i) - 1]), FS, d.openLag)]
  {
    MemberAt(cat, i);
  }

  /** Positions 1 and 2 of a phase start with one FS edge, lag 0 or 1, to the
      task just before them in the phase; anything after it is a
      cross-phase SS/FF edge. */
  lemma SequentialOpening(cat: seq<CatalogEntry>, style: NetworkStyle, i: nat, d: TaskDraws)
    requires i < |cat| && ValidDraws(cat, i, d)
    requires cat[i].name != FinalTaskName && 1 <= PhasePos(cat, i) <= 2
    ensures var members := Members(cat, cat[i].phase);
      var es := TaskEdges(cat, style, i, d);
      && PhasePos(cat, i) - 1 < |members|
      && 1 <= |es| <= 2
      && es[0] == Edge(Id(members[PhasePos(cat, i) - 1]), FS, d.openLag)
      && 0 <= es[0].lag <= 1
      && forall j :: 1 <= j < |es| ==> es[j].rel == SS || es[j].rel == FF
  {
    SequentialAssembled(cat, i, d);
    TaskEdgesUncapped(cat, style, i, d);
  }

  /** The assembled list of positions 1 and 2: the sequential edge, then at
      most one cross-phase edge. */
  lemma SequentialAssembled(cat: seq<CatalogEntry>, i: nat, d: TaskDraws)
    requires i < |cat| && ValidDraws(cat, i, d)
    requires cat[i].name != FinalTaskName && 1 <= PhasePos(cat, i) <= 2
    ensures var members := Members(cat, cat[i].phase);
      var es := Assembled(cat, i, d);
      && PhasePos(cat, i) - 1 < |members|
      && 1 <= |es| <= 2
      && es[0] == Edge(Id(members[PhasePos(cat, i) - 1]), FS, d.openLag)
      && (|es| == 2 ==> es[1].rel == SS || es[1].rel == FF)
  {
    IntraOpening(cat, i, d);
    InterEdgesShape(cat, i, d);
    var inter := InterEdges(cat, i, d);
    var es := IntraEdges(cat, i, d) + inter;
    assert Assembled(cat, i, d) == es;
    if |es| == 2 {
      assert es[1] == inter[0] && inter[0] in inter;
    }
  }

  /** The opening links of a phase's first task name tail tasks. */
  lemma LinksFromCritical(crit: seq<nat>, link: seq<LinkPick>)
    requires forall j :: 0 <= j < |link| ==> link[j].pos < |crit|
    ensures forall e :: e in LinkEdges(crit, link) ==> e.rel == FS && exists m :: m in crit && e.pred == Id(m)
  {
    var es := LinkEdges(crit, link);
    forall e | e in es ensures e.rel == FS && exists m :: m in crit && e.pred == Id(m) {
      var j :| 0 <= j < |es| && es[j] == e;
      assert crit[link[j].pos] in crit;
    }
  }

  /** The first task of every phase after the first (when the previous phase
      has tasks) gets at least one FS edge, all of them to the tail of the
      previous phase. */
  lemma PhaseOpeningLinks(cat: seq<CatalogEntry>, style: NetworkStyle, i: nat, d: TaskDraws)
    requires i < |cat| && ValidDraws(cat, i, d)
    requires cat[i].name != FinalTaskName && PhasePos(cat, i) == 0
    requires PhaseIndex(cat[i].phase) > 0 && |PrevMembers(cat, i)| > 0
    ensures var es := TaskEdges(cat, style, i, d);
      && |es| >= 1
      && forall e :: e in es ==> e.rel == FS && exists m :: m in Critical(cat, i) && e.pred == Id(m)
  {
    OpeningAssembled(cat, i, d);
    TaskEdgesUncapped(cat, style, i, d);
    LinksFromCritical(Critical(cat, i), d.link);
  }

  /** A phase-opening task's assembled list is exactly its links, one or
      two of them. */
  lemma OpeningAssembled(cat: seq<CatalogEntry>, i: nat, d: TaskDraws)
    requires i < |cat| && ValidDraws(cat, i, d)
    requires cat[i].name != FinalTaskName && PhasePos(cat, i) == 0
    requires PhaseIndex(cat[i].phase) > 0 && |PrevMembers(cat, i)| > 0
    ensures forall j :: 0 <= j < |d.link| ==> d.link[j].pos < |Critical(cat, i)|
    ensures Assembled(cat, i, d) == LinkEdges(Critical(cat, i), d.link)
    ensures 1 <= |d.link| <= 2
  {
    assert IntraEdges(cat, i, d) == [];
    assert InterEdges(cat, i, d) == LinkEdges(Critical(cat, i), d.link);
    assert Assembled(cat, i, d) == [] + InterEdges(cat, i, d);
    CriticalNonEmpty(cat, i);
  }

  /** The tail a phase-opening task links to is non-empty and at most
      three long. */
  lemma CriticalNonEmpty(cat: seq<CatalogEntry>, i: nat)
    requires i < |cat| && PhaseIndex(cat[i].phase) > 0 && |PrevMembers(cat, i)| > 0
    ensures 0 < |Critical(cat, i)| <= 3
    ensures SpecialLink(cat[i].phase) ==> |Critical(cat, i)| <= 2
    ensures var prev, crit := PrevMembers(cat, i), Critical(cat, i);
      |crit| <= |prev| && prev == prev[..|prev| - |crit|] + crit
  {
    var p := cat[i].phase;
    if p == Commissioning {
      assert PhaseAt(PhaseIndex(p) - 1) == FinishingAndTesting;
      LastNIsSuffix(PrevMembers(cat, i), 2);
    } else if p == FinishingAndTesting {
      assert PhaseAt(PhaseIndex(p) - 1) == ElectricalInstallations;
      LastNIsSuffix(PrevMembers(cat, i), 2);
    } else {
      LastNIsSuffix(PrevMembers(cat, i), 3);
    }
  }

  /** Every edge of the built network points to a smaller id, so the
      network is acyclic before the cycle pass runs. */
  lemma NetworkIsBackward(cat: seq<CatalogEntry>, style: NetworkStyle, draws: seq<TaskDraws>, preds: seq<seq<Edge>>)
    requires WellFormedCatalog(cat)
    requires |draws| == |cat| == |preds|
    requires forall i :: 0 <= i < |cat| ==> ValidDraws(cat, i, draws[i])
    requires forall i :: 0 <= i < |cat| ==> preds[i] == TaskEdges(cat, style, i, draws[i])
    ensures Backward(preds)
  {
    forall i, k | 0 <= i < |preds| && 0 <= k < |preds[i]| ensures 1 <= preds[i][k].pred <= i {
      TaskEdgesWellShaped(cat, style, i, draws[i]);
      assert preds[i][k] in TaskEdges(cat, style, i, draws[i]);
    }
  }
}
