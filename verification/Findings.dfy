/** Findings of one sensor: sorting, capping, counting and the summary built from them. */
module Findings {
  import opened Types
  import opened SortKeys
  import opened StableSort

  function FindingSortKey(sensorId: string, f: Finding): Key {
    [Num(SeverityRank(f.severity)), Text(sensorId), Text(f.Path().GetOr("")), Num(f.Line().GetOr(U32_MAX)),
     Text(f.code), Text(f.message)]
  }

  function ByFindingKey(sensorId: string): Finding -> Key {
    f => FindingSortKey(sensorId, f)
  }

  function SortFindings(sensorId: string, findings: seq<Finding>): seq<Finding> {
    SortBy(ByFindingKey(sensorId), findings)
  }

  function Take<T>(s: seq<T>, max: nat): seq<T> {
    if |s| <= max then s else s[..max]
  }

  /** The first `max` findings, and whether any were dropped. */
  method CapFindings(findings: seq<Finding>, max: usize) returns (capped: seq<Finding>, truncated: bool)
    ensures capped <= findings && |capped| == Min(|findings|, max)
    ensures capped == Take(findings, max)
    ensures truncated <==> |findings| > max
  {
    if |findings| <= max {
      return findings, false;
    }
    capped := findings[..max];
    truncated := true;
  }

  function Min(a: nat, b: nat): nat {
    if a <= b then a else b
  }

  /** How many findings have the given severity. */
  function CountOf(severity: Severity, findings: seq<Finding>): nat {
    if findings == [] then 0
    else (if findings[0].severity == severity then 1 else 0) + CountOf(severity, findings[1..])
  }

  lemma {:induction false} CountOfAppend(severity: Severity, a: seq<Finding>, b: seq<Finding>)
    ensures CountOf(severity, a + b) == CountOf(severity, a) + CountOf(severity, b)
  {
    if a == [] {
      assert a + b == b;
    } else {
      assert (a + b)[1..] == a[1..] + b;
      CountOfAppend(severity, a[1..], b);
    }
  }

  lemma {:induction false} CountOfInsert(severity: Severity, key: Finding -> Key, x: Finding, s: seq<Finding>)
    ensures CountOf(severity, Insert(key, x, s)) == CountOf(severity, [x] + s)
  {
    hide KeyLeq;
    assert ([x] + s)[1..] == s;
    if s != [] && !KeyLeq(key(x), key(s[0])) {
      var t := s[1..];
      CountOfInsert(severity, key, x, t);
      assert Insert(key, x, s)[1..] == Insert(key, x, t) && ([x] + t)[1..] == t;
    }
  }

  /** Sorting does not change how many findings of a severity there are. */
  lemma {:induction false} CountOfSorted(severity: Severity, key: Finding -> Key, s: seq<Finding>)
    ensures CountOf(severity, SortBy(key, s)) == CountOf(severity, s)
  {
    if s != [] {
      var t := s[1..];
      CountOfSorted(severity, key, t);
      CountOfInsert(severity, key, s[0], SortBy(key, t));
      CountOfAppend(severity, [s[0]], SortBy(key, t));
      CountOfAppend(severity, [s[0]], t);
      assert s == [s[0]] + t;
    }
  }

  lemma {:induction false} CountsAddUp(findings: seq<Finding>)
    ensures CountOf(Error, findings) + CountOf(Severity.Warn, findings) + CountOf(Info, findings) == |findings|
  {
    if findings != [] {
      CountsAddUp(findings[1..]);
    }
  }

  function Counts(findings: seq<Finding>): VerdictCounts {
    VerdictCounts(Saturate(CountOf(Info, findings)), Saturate(CountOf(Severity.Warn, findings)),
                  Saturate(CountOf(Error, findings)), 0)
  }

  /** The counting loop, which saturates at every step, reaches the saturated exact counts. */
  method ComputeCounts(findings: seq<Finding>) returns (c: VerdictCounts)
    ensures c == Counts(findings)
  {
    c := ZERO_COUNTS;
    for i := 0 to |findings|
      invariant c == Counts(findings[..i])
    {
      var f := findings[i];
      CountOfAppend(Info, findings[..i], [f]);
      CountOfAppend(Severity.Warn, findings[..i], [f]);
      CountOfAppend(Error, findings[..i], [f]);
      assert findings[..i + 1] == findings[..i] + [f];
      match f.severity {
        case Info => c := c.(info := SaturatingAdd(c.info, 1));
        case Warn => c := c.(warn := SaturatingAdd(c.warn, 1));
        case Error => c := c.(error := SaturatingAdd(c.error, 1));
      }
    }
    assert findings[..|findings|] == findings;
  }

  ghost predicate SeveritySorted(s: seq<Finding>) {
    forall i, j :: 0 <= i < j < |s| ==> SeverityRank(s[i].severity) <= SeverityRank(s[j].severity)
  }

  lemma SortedBySeverity(sensorId: string, findings: seq<Finding>)
    ensures SeveritySorted(SortFindings(sensorId, findings))
  {
    var s := SortFindings(sensorId, findings);
    SortByCorrect(ByFindingKey(sensorId), findings);
    forall i, j | 0 <= i < j < |s|
      ensures SeverityRank(s[i].severity) <= SeverityRank(s[j].severity)
    {
      var a, b := FindingSortKey(sensorId, s[i]), FindingSortKey(sensorId, s[j]);
      assert KeyLeq(a, b) && PartLeq(a[0], b[0]);
    }
  }

  lemma CountOfCut(severity: Severity, s: seq<Finding>, m: nat)
    requires m < |s|
    ensures m == 0 ==> CountOf(severity, Take(s, m)) == 0
    ensures m > 0 ==> CountOf(severity, Take(s, m)) ==
                      (if s[0].severity == severity then 1 else 0) + CountOf(severity, Take(s[1..], m - 1))
    ensures CountOf(severity, s) == (if s[0].severity == severity then 1 else 0) + CountOf(severity, s[1..])
  {
    if m > 0 {
      assert Take(s, m)[1..] == Take(s[1..], m - 1);
    }
  }

  /** Cutting a severity-sorted list keeps errors first, then warnings, then infos. */
  lemma {:induction false} CutKeepsWorst(s: seq<Finding>, m: nat)
    requires SeveritySorted(s)
    ensures var t := Take(s, m);
            && CountOf(Error, t) == Min(CountOf(Error, s), m)
            && CountOf(Severity.Warn, t) == Min(CountOf(Severity.Warn, s), m - CountOf(Error, t))
            && CountOf(Info, t) == Min(CountOf(Info, s), m - CountOf(Error, t) - CountOf(Severity.Warn, t))
  {
    hide CountOf, SeverityRank;
    CountsAddUp(s);
    if |s| > m {
      CountOfCut(Error, s, m);
      CountOfCut(Severity.Warn, s, m);
      CountOfCut(Info, s, m);
      if m > 0 {
        CutKeepsWorst(s[1..], m - 1);
        NoWorseBehind(s);
      }
    }
  }

  /** Behind the head of a severity-sorted list nothing is worse. */
  lemma {:induction false} NoWorseBehind(s: seq<Finding>)
    requires SeveritySorted(s) && s != []
    ensures s[0].severity != Error ==> CountOf(Error, s) == 0
    ensures s[0].severity == Info ==> CountOf(Severity.Warn, s) == 0
  {
    if |s| > 1 {
      NoWorseBehind(s[1..]);
    }
  }

  /** The counts a cap of `m` leaves of `e` errors, `w` warnings and `i` infos. */
  function GreedyCounts(e: nat, w: nat, i: nat, m: usize): VerdictCounts {
    var error := Min(e, m);
    var warn := Min(w, m - error);
    VerdictCounts(Min(i, m - error - warn), warn, error, 0)
  }

  /** Sorting, capping and recounting spends the cap on errors first, then warnings, then infos: the counts
      depend on the severities alone, not on the order or content of the findings. */
  lemma SortCapCountIsGreedy(sensorId: string, findings: seq<Finding>, m: usize)
    ensures Counts(Take(SortFindings(sensorId, findings), m)) ==
            GreedyCounts(CountOf(Error, findings), CountOf(Severity.Warn, findings), CountOf(Info, findings), m)
  {
    var s := SortFindings(sensorId, findings);
    hide CountOf, SortBy;
    var key := ByFindingKey(sensorId);
    CountOfSorted(Error, key, findings);
    CountOfSorted(Severity.Warn, key, findings);
    CountOfSorted(Info, key, findings);
    SortedBySeverity(sensorId, findings);
    CutKeepsWorst(s, m);
  }
}
