/** The overall verdict over all sensor summaries, the exit code, and the order of the summary rows. */
module OverallVerdict {
  import opened Types
  import opened SortKeys
  import opened StableSort

  /** A blocking warning counts as a failure under `warn_is_fail`. */
  function EffectiveStatus(cfg: CockpitConfig, s: SensorSummary): VerdictStatus {
    if cfg.policy.warnIsFail && s.verdict.status == VerdictStatus.Warn then VerdictStatus.Fail else s.verdict.status
  }

  ghost predicate SomeBlocking(cfg: CockpitConfig, ss: seq<SensorSummary>, status: VerdictStatus) {
    exists s :: s in ss && s.blocking && EffectiveStatus(cfg, s) == status
  }

  ghost predicate SomeBlockingWarn(ss: seq<SensorSummary>) {
    exists s :: s in ss && s.blocking && s.verdict.status == VerdictStatus.Warn
  }

  ghost function OverallStatus(cfg: CockpitConfig, ss: seq<SensorSummary>): VerdictStatus {
    if SomeBlocking(cfg, ss, VerdictStatus.Fail) then VerdictStatus.Fail
    else if SomeBlocking(cfg, ss, VerdictStatus.Warn) then VerdictStatus.Warn
    else VerdictStatus.Pass
  }

  ghost function OverallReasons(cfg: CockpitConfig, ss: seq<SensorSummary>): seq<string> {
    if cfg.policy.warnIsFail && SomeBlockingWarn(ss) then ["warn_is_fail"] else []
  }

  /** The exact totals, without saturation. */
  datatype Totals = Totals(info: nat, warn: nat, error: nat)

  ghost function Sum(ss: seq<SensorSummary>): Totals {
    if ss == [] then Totals(0, 0, 0)
    else
      var rest, c := Sum(ss[1..]), ss[0].verdict.counts;
      Totals(c.info + rest.info, c.warn + rest.warn, c.error + rest.error)
  }

  ghost function Overall(cfg: CockpitConfig, ss: seq<SensorSummary>): Verdict {
    var total := Sum(ss);
    Verdict(OverallStatus(cfg, ss),
            VerdictCounts(Saturate(total.info), Saturate(total.warn), Saturate(total.error), 0),
            OverallReasons(cfg, ss))
  }

  lemma {:induction false} SumAppend(a: seq<SensorSummary>, b: seq<SensorSummary>)
    ensures Sum(a + b) ==
            Totals(Sum(a).info + Sum(b).info, Sum(a).warn + Sum(b).warn, Sum(a).error + Sum(b).error)
  {
    if a == [] {
      assert a + b == b;
    } else {
      assert (a + b)[1..] == a[1..] + b;
      SumAppend(a[1..], b);
    }
  }

  lemma SumSnoc(ss: seq<SensorSummary>, s: SensorSummary)
    ensures var c := s.verdict.counts;
            Sum(ss + [s]) == Totals(Sum(ss).info + c.info, Sum(ss).warn + c.warn, Sum(ss).error + c.error)
  {
    SumAppend(ss, [s]);
    assert Sum([s]) == Totals(s.verdict.counts.info, s.verdict.counts.warn, s.verdict.counts.error);
  }

  lemma SomeBlockingSnoc(cfg: CockpitConfig, ss: seq<SensorSummary>, s: SensorSummary, status: VerdictStatus)
    ensures SomeBlocking(cfg, ss + [s], status) <==>
            SomeBlocking(cfg, ss, status) || (s.blocking && EffectiveStatus(cfg, s) == status)
    ensures SomeBlockingWarn(ss + [s]) <==>
            SomeBlockingWarn(ss) || (s.blocking && s.verdict.status == VerdictStatus.Warn)
  {
    assert s in ss + [s];
    assert forall x :: x in ss ==> x in ss + [s];
  }

  /** The loop: counts saturate at every step, non-blocking sensors contribute counts only, and the status
      only ever gets worse. */
  method ComputeOverallVerdict(summaries: seq<SensorSummary>, cfg: CockpitConfig) returns (v: Verdict)
    ensures v == Overall(cfg, summaries)
  {
    hide Sum, SomeBlocking, SomeBlockingWarn, EffectiveStatus;
    var worst := VerdictStatus.Pass;
    var counts := ZERO_COUNTS;
    var reasons: seq<string> := [];
    NothingYet(cfg, summaries[..0]);
    for i := 0 to |summaries|
      invariant Verdict(worst, counts, reasons) == Overall(cfg, summaries[..i])
    {
      var s := summaries[i];
      assert summaries[..i + 1] == summaries[..i] + [s];
      SumSnoc(summaries[..i], s);
      SomeBlockingSnoc(cfg, summaries[..i], s, VerdictStatus.Fail);
      SomeBlockingSnoc(cfg, summaries[..i], s, VerdictStatus.Warn);
      counts := counts.(info := SaturatingAdd(counts.info, s.verdict.counts.info));
      counts := counts.(warn := SaturatingAdd(counts.warn, s.verdict.counts.warn));
      counts := counts.(error := SaturatingAdd(counts.error, s.verdict.counts.error));
      if !s.blocking {
        continue;
      }
      var effective := s.verdict.status;
      if cfg.policy.warnIsFail && effective == VerdictStatus.Warn {
        effective := VerdictStatus.Fail;
        if "warn_is_fail" !in reasons {
          reasons := reasons + ["warn_is_fail"];
        }
      }
      EffectiveIs(cfg, s);
      if VerdictStatusRank(effective) < VerdictStatusRank(worst) {
        worst := effective;
      }
    }
    assert summaries[..|summaries|] == summaries;
    v := Verdict(worst, counts, reasons);
  }

  lemma EffectiveIs(cfg: CockpitConfig, s: SensorSummary)
    ensures EffectiveStatus(cfg, s) ==
            if cfg.policy.warnIsFail && s.verdict.status == VerdictStatus.Warn then VerdictStatus.Fail
            else s.verdict.status
  {
  }

  lemma NothingYet(cfg: CockpitConfig, ss: seq<SensorSummary>)
    requires ss == []
    ensures Overall(cfg, ss) == Verdict(VerdictStatus.Pass, ZERO_COUNTS, [])
  {
  }

  /** The status is the worst of `Pass` and what blocking sensors effectively report, so never `Skip`. */
  lemma OverallIsWorst(cfg: CockpitConfig, ss: seq<SensorSummary>)
    ensures var status := Overall(cfg, ss).status;
            && status != VerdictStatus.Skip
            && (forall s :: s in ss && s.blocking ==>
                VerdictStatusRank(status) <= VerdictStatusRank(EffectiveStatus(cfg, s)))
            && (status == VerdictStatus.Pass || SomeBlocking(cfg, ss, status))
  {
    forall s | s in ss && s.blocking
      ensures VerdictStatusRank(Overall(cfg, ss).status) <= VerdictStatusRank(EffectiveStatus(cfg, s))
    {
      assert SomeBlocking(cfg, ss, EffectiveStatus(cfg, s));
    }
  }

  lemma SumTakesOut(ss: seq<SensorSummary>, s: SensorSummary) returns (rest: seq<SensorSummary>)
    requires s in ss
    ensures |rest| == |ss| - 1 && multiset(ss) == multiset{s} + multiset(rest) && Sum(ss) == Sum([s] + rest)
  {
    hide Sum;
    var i;
    i, rest := TakeOut(ss, s);
    var a, b := ss[..i], ss[i + 1..];
    assert ss == a + ([s] + b);
    SumAppend(a, [s] + b);
    SumAppend([s], b);
    SumAppend([s], rest);
    SumAppend(a, b);
  }

  lemma {:induction false} SumPermutation(ss: seq<SensorSummary>, ts: seq<SensorSummary>)
    requires multiset(ss) == multiset(ts)
    ensures Sum(ss) == Sum(ts)
    decreases |ss|
  {
    hide Sum;
    assert |multiset(ss)| == |multiset(ts)|;
    if ss != [] {
      var s := ss[0];
      assert s in multiset(ts);
      var rest := SumTakesOut(ss, s);
      var others := SumTakesOut(ts, s);
      assert multiset(rest) == multiset(ss) - multiset{s};
      SumPermutation(rest, others);
      SumAppend([s], rest);
      SumAppend([s], others);
    }
  }

  /** The order of the rows does not matter to the overall verdict. */
  lemma OverallPermutation(cfg: CockpitConfig, ss: seq<SensorSummary>, ts: seq<SensorSummary>)
    requires multiset(ss) == multiset(ts)
    ensures Overall(cfg, ss) == Overall(cfg, ts)
  {
    SumPermutation(ss, ts);
    forall s
      ensures s in ss <==> s in ts
    {
      assert s in multiset(ss) <==> s in multiset(ts);
    }
  }

  /** 0 for pass or warn, 2 for a policy failure. */
  function ExitCode(status: VerdictStatus): int {
    match status
    case Fail => 2
    case _ => 0
  }

  lemma ExitCodeIff(cfg: CockpitConfig, ss: seq<SensorSummary>)
    ensures ExitCode(Overall(cfg, ss).status) in {0, 2}
    ensures ExitCode(Overall(cfg, ss).status) == 2 <==>
            exists s :: s in ss && s.blocking
              && (s.verdict.status == VerdictStatus.Fail
                  || (s.verdict.status == VerdictStatus.Warn && cfg.policy.warnIsFail))
  {
    if s :| s in ss && s.blocking
            && (s.verdict.status == VerdictStatus.Fail
                || (s.verdict.status == VerdictStatus.Warn && cfg.policy.warnIsFail)) {
      assert SomeBlocking(cfg, ss, VerdictStatus.Fail);
    }
  }

  // ---- Row order ----

  /** The position of a section in the configured order; a section listed twice takes its last position, an
      unlisted one comes last. */
  function SectionRank(order: seq<string>, section: string): nat {
    if order == [] then U64_MAX
    else if order[|order| - 1] == section then |order| - 1
    else SectionRank(order[..|order| - 1], section)
  }

  function SectionOf(cfg: CockpitConfig, id: string): string {
    if id in cfg.sensors then cfg.sensors[id].section.GetOr("Other") else "Other"
  }

  function BySection(cfg: CockpitConfig): SensorSummary -> Key {
    (s: SensorSummary) => [Num(SectionRank(cfg.policy.sectionOrder, SectionOf(cfg, s.id))), Text(s.id)]
  }

  function BySectionTable(cfg: CockpitConfig, ranks: map<string, nat>): SensorSummary -> Key {
    (s: SensorSummary) => var section := SectionOf(cfg, s.id);
         [Num(if section in ranks then ranks[section] else U64_MAX), Text(s.id)]
  }

  /** Rows are sorted through a table of section ranks. */
  method SortSensorSummaries(summaries: seq<SensorSummary>, cfg: CockpitConfig) returns (rows: seq<SensorSummary>)
    ensures rows == SortBy(BySection(cfg), summaries)
  {
    var order := cfg.policy.sectionOrder;
    var ranks: map<string, nat> := map[];
    for i := 0 to |order|
      invariant forall section ::
        (if section in ranks then ranks[section] else U64_MAX) == SectionRank(order[..i], section)
    {
      assert order[..i + 1][..i] == order[..i];
      ranks := ranks[order[i] := i];
    }
    assert order[..|order|] == order;
    rows := SortBy(BySectionTable(cfg, ranks), summaries);
    SortByCongruent(BySectionTable(cfg, ranks), BySection(cfg), summaries);
  }

  ghost predicate IdsDistinct(ss: seq<SensorSummary>) {
    forall s, t :: s in ss && t in ss && s.id == t.id ==> s == t
  }

  /** With one row per sensor, the row order is decided by the configuration and the ids alone. */
  lemma RowOrderIsDetermined(cfg: CockpitConfig, ss: seq<SensorSummary>, ts: seq<SensorSummary>)
    requires IdsDistinct(ss) && multiset(ss) == multiset(ts)
    ensures SortBy(BySection(cfg), ss) == SortBy(BySection(cfg), ts)
  {
    var key := BySection(cfg);
    forall s, t | s in ss && t in ss && key(s) == key(t)
      ensures s == t
    {
      assert key(s)[1] == key(t)[1];
    }
    SortPermutation(key, ss, ts);
  }

  /** A listed section ranks by its last position in the list; any other section ranks behind all of them. */
  lemma {:induction false} SectionRankIs(order: seq<string>, section: string)
    ensures section !in order ==> SectionRank(order, section) == U64_MAX
    ensures section in order ==> var r := SectionRank(order, section);
            r < |order| && order[r] == section && forall j :: r < j < |order| ==> order[j] != section
  {
    if order != [] && order[|order| - 1] != section {
      var front := order[..|order| - 1];
      SectionRankIs(front, section);
      assert order == front + [order[|order| - 1]];
    }
  }

  /** How the rows come out: a row whose section is listed follows only rows of listed sections, none of them listed
      later; within a section rows are ordered by id. */
  lemma RowsFollowSections(cfg: CockpitConfig, ss: seq<SensorSummary>, i: nat, j: nat)
    requires |cfg.policy.sectionOrder| <= U64_MAX && i < j < |SortBy(BySection(cfg), ss)|
    ensures var rows, order := SortBy(BySection(cfg), ss), cfg.policy.sectionOrder;
            var a, b := SectionOf(cfg, rows[i].id), SectionOf(cfg, rows[j].id);
            && (a == b ==> SortKeys.StringLeq(rows[i].id, rows[j].id))
            && (b in order ==> a in order && SectionRank(order, a) <= SectionRank(order, b))
  {
    hide SortKeys.StringLeq;
    var rows, order := SortBy(BySection(cfg), ss), cfg.policy.sectionOrder;
    var a, b := SectionOf(cfg, rows[i].id), SectionOf(cfg, rows[j].id);
    SortByCorrect(BySection(cfg), ss);
    SectionRankIs(order, a);
    SectionRankIs(order, b);
    var ra, rb := Num(SectionRank(order, a)), Num(SectionRank(order, b));
    SortKeys.ConsLeq(ra, [Text(rows[i].id)], rb, [Text(rows[j].id)]);
    SortKeys.ConsLeq(Text(rows[i].id), [], Text(rows[j].id), []);
  }
}
