/** The readiness calculator: the 0-100 "exam readiness" score of one learner for one
    certification, derived from how many labs, passed assessments and projects they have
    completed, against the certification's declared counts. */
module Readiness {
  import opened Common

  /** A certification's catalogue entry. The three counts are the calculator's
      denominators; a stored document may lack any of them. */
  datatype Certification = Certification(
    name: string,
    code: string,
    vendor: string,
    labsCount: Option<int>,
    assessmentsCount: Option<int>,
    projectsCount: Option<int>)

  /** Category weights, in percent: labs 0.4, assessments 0.4, projects 0.2. */
  const LabsWeight: nat := 40
  const AssessmentsWeight: nat := 40
  const ProjectsWeight: nat := 20

  /** `max(cert.get(field, 1), 1)`: a missing count reads as 1, and no denominator is below 1. */
  function Denominator(count: Option<int>): (d: int)
    ensures d >= 1
    ensures count.Some? && count.value >= 1 ==> d == count.value
    ensures count.None? ==> d == 1
    ensures count.Some? && count.value < 1 ==> d == 1
  {
    var c := count.GetOr(1);
    if c < 1 then 1 else c
  }

  lemma ProductAtLeastOne(l: int, a: int, p: int)
    requires l >= 1 && a >= 1 && p >= 1
    ensures l * a >= 1 && l * p >= 1 && a * p >= 1 && l * a * p >= 1
  {
    assert l * a >= 1 * a;
    assert l * p >= 1 * p;
    assert a * p >= 1 * p;
    assert (l * a) * p >= 1 * p;
  }

  /** The common denominator of the three category ratios. */
  function Scale(cert: Certification): (s: int)
    ensures s >= 1
  {
    var l, a, p := Denominator(cert.labsCount), Denominator(cert.assessmentsCount), Denominator(cert.projectsCount);
    ProductAtLeastOne(l, a, p);
    l * a * p
  }

  /** The weighted sum of the three category ratios over denominators `l`, `a`, `p`, times `l * a * p`. */
  function WeightedPoints(labs: nat, passed: nat, projects: nat, l: int, a: int, p: int): (n: int)
    requires l >= 1 && a >= 1 && p >= 1
    ensures n >= 0
  {
    ProductAtLeastOne(l, a, p);
    LabsWeight * labs * (a * p) + AssessmentsWeight * passed * (l * p) + ProjectsWeight * projects * (l * a)
  }

  function Points(labs: nat, passed: nat, projects: nat, cert: Certification): (n: int)
  {
    WeightedPoints(labs, passed, projects,
      Denominator(cert.labsCount), Denominator(cert.assessmentsCount), Denominator(cert.projectsCount))
  }

  /** `recalculate_readiness`: `min(100, int(weighted sum of uncapped category percentages))`,
      evaluated exactly. `labs` and `projects` are the list lengths, `passed` the number of
      assessment entries marked passed. */
  function ReadinessScore(labs: nat, passed: nat, projects: nat, cert: Certification): (r: int)
    ensures 0 <= r <= 100
  {
    var q := Points(labs, passed, projects, cert) / Scale(cert);
    if q < 100 then q else 100
  }

  /** The source's formula over exact reals: each category ratio times 100, weighted
      0.4 / 0.4 / 0.2, before `int(...)` and `min(100, ...)`. */
  ghost function RawPercent(labs: nat, passed: nat, projects: nat, l: int, a: int, p: int): real
    requires l >= 1 && a >= 1 && p >= 1
  {
    (labs as real / l as real * 100.0) * 0.4
    + (passed as real / a as real * 100.0) * 0.4
    + (projects as real / p as real * 100.0) * 0.2
  }

  /** `RawPercent` over the certification's guarded denominators. */
  ghost function WeightedPercent(labs: nat, passed: nat, projects: nat, cert: Certification): real
  {
    RawPercent(labs, passed, projects,
      Denominator(cert.labsCount), Denominator(cert.assessmentsCount), Denominator(cert.projectsCount))
  }

  lemma UnitInterval(e: real, d: real, r: real)
    requires d >= 1.0 && 0.0 <= r < d && e * d == r
    ensures 0.0 <= e < 1.0
  {
  }

  lemma ToRealMul(x: int, y: int)
    ensures (x * y) as real == x as real * y as real
  {
  }

  lemma FloorOfQuotient(w: real, n: int, d: int)
    requires d >= 1 && w * d as real == n as real
    ensures w.Floor == n / d
  {
    var q, r := n / d, n % d;
    assert n == d * q + r && 0 <= r < d;
    ToRealMul(d, q);
    assert (w - q as real) * d as real == r as real;
    UnitInterval(w - q as real, d as real, r as real);
  }

  lemma CancelRatio(n: real, d: real, k: real)
    requires d > 0.0
    ensures (n / d) * (d * k) == n * k
  {
  }

  lemma WeightedAlgebra(nl: real, na: real, np: real, L: real, A: real, P: real)
    requires L > 0.0 && A > 0.0 && P > 0.0
    ensures ((nl / L * 100.0) * 0.4 + (na / A * 100.0) * 0.4 + (np / P * 100.0) * 0.2) * (L * A * P)
         == 40.0 * nl * (A * P) + 40.0 * na * (L * P) + 20.0 * np * (L * A)
  {
    var x, y, z := nl / L, na / A, np / P;
    CancelRatio(nl, L, A * P);
    CancelRatio(na, A, L * P);
    CancelRatio(np, P, L * A);
    var S := L * A * P;
    assert L * (A * P) == S && A * (L * P) == S && P * (L * A) == S;
    calc {
      ((x * 100.0) * 0.4 + (y * 100.0) * 0.4 + (z * 100.0) * 0.2) * S;
      40.0 * (x * S) + 40.0 * (y * S) + 20.0 * (z * S);
      40.0 * (x * (L * (A * P))) + 40.0 * (y * (A * (L * P))) + 20.0 * (z * (P * (L * A)));
    }
  }

  lemma ToRealTerm(w: int, n: int, x: int, y: int)
    ensures (w * n * (x * y)) as real == w as real * n as real * (x as real * y as real)
  {
    ToRealMul(x, y);
    ToRealMul(w, n);
    ToRealMul(w * n, x * y);
  }

  /** Multiplying the exact weighted percentage by `l * a * p` gives the integer `WeightedPoints`. */
  lemma RawPercentTimesScale(labs: nat, passed: nat, projects: nat, l: int, a: int, p: int)
    requires l >= 1 && a >= 1 && p >= 1
    ensures RawPercent(labs, passed, projects, l, a, p) * (l * a * p) as real
         == WeightedPoints(labs, passed, projects, l, a, p) as real
  {
    var L, A, P := l as real, a as real, p as real;
    var R := 40.0 * labs as real * (A * P) + 40.0 * passed as real * (L * P) + 20.0 * projects as real * (L * A);
    ToRealMul(l, a);
    ToRealMul(l * a, p);
    ToRealTerm(LabsWeight, labs, a, p);
    ToRealTerm(AssessmentsWeight, passed, l, p);
    ToRealTerm(ProjectsWeight, projects, l, a);
    assert WeightedPoints(labs, passed, projects, l, a, p) as real == R;
    WeightedAlgebra(labs as real, passed as real, projects as real, L, A, P);
  }

  lemma FloorOfRawPercent(labs: nat, passed: nat, projects: nat, l: int, a: int, p: int)
    requires l >= 1 && a >= 1 && p >= 1
    ensures RawPercent(labs, passed, projects, l, a, p).Floor == WeightedPoints(labs, passed, projects, l, a, p) / (l * a * p)
  {
    ProductAtLeastOne(l, a, p);
    RawPercentTimesScale(labs, passed, projects, l, a, p);
    FloorOfQuotient(RawPercent(labs, passed, projects, l, a, p), WeightedPoints(labs, passed, projects, l, a, p), l * a * p);
  }

  /** The truncated exact weighted percentage is the integer quotient `Points / Scale`. */
  lemma FloorOfWeightedPercent(labs: nat, passed: nat, projects: nat, cert: Certification)
    ensures WeightedPercent(labs, passed, projects, cert).Floor == Points(labs, passed, projects, cert) / Scale(cert)
  {
    FloorOfRawPercent(labs, passed, projects,
      Denominator(cert.labsCount), Denominator(cert.assessmentsCount), Denominator(cert.projectsCount));
  }

  /** The integer computation is exactly `min(100, int(raw))` for the source's weighted
      percentage `raw`, taken over exact rationals. */
  lemma ReadinessIsTruncatedWeightedPercent(labs: nat, passed: nat, projects: nat, cert: Certification)
    ensures var raw := WeightedPercent(labs, passed, projects, cert);
            ReadinessScore(labs, passed, projects, cert) == if raw.Floor < 100 then raw.Floor else 100
  {
    FloorOfWeightedPercent(labs, passed, projects, cert);
  }

  lemma QuotientMonotone(x: int, y: int, d: int)
    requires x <= y && d >= 1
    ensures x / d <= y / d
  {
    var qx, qy := x / d, y / d;
    assert d * qx <= x && y < d * qy + d;
    assert d * qx < d * (qy + 1);
    MulCancelStrict(d, qx, qy + 1);
  }

  lemma MulCancelStrict(d: int, u: int, v: int)
    requires d >= 1 && d * u < d * v
    ensures u < v
  {
    assert d * (v - u) > 0;
  }

  lemma WeightedPointsMonotone(labs: nat, passed: nat, projects: nat, labs': nat, passed': nat, projects': nat,
                               l: int, a: int, p: int)
    requires l >= 1 && a >= 1 && p >= 1
    requires labs <= labs' && passed <= passed' && projects <= projects'
    ensures WeightedPoints(labs, passed, projects, l, a, p) <= WeightedPoints(labs', passed', projects', l, a, p)
  {
    ProductAtLeastOne(l, a, p);
    MulMonotone(LabsWeight * labs, LabsWeight * labs', a * p);
    MulMonotone(AssessmentsWeight * passed, AssessmentsWeight * passed', l * p);
    MulMonotone(ProjectsWeight * projects, ProjectsWeight * projects', l * a);
  }

  lemma MulMonotone(x: int, y: int, k: int)
    requires x <= y && k >= 0
    ensures x * k <= y * k
  {
    assert (y - x) * k >= 0;
  }

  lemma MulDivCancel(c: int, d: int)
    requires d >= 1
    ensures (c * d) / d == c
  {
    var q, r := (c * d) / d, (c * d) % d;
    assert c * d == d * q + r && 0 <= r < d;
    assert d * (c - q) == r;
    if c - q >= 1 {
      MulMonotone(1, c - q, d);
    } else if c - q <= -1 {
      MulMonotone(c - q, -1, d);
    }
  }

  /** More completed labs, passed assessments or completed projects never lower readiness. */
  lemma ReadinessMonotone(labs: nat, passed: nat, projects: nat, labs': nat, passed': nat, projects': nat,
                          cert: Certification)
    requires labs <= labs' && passed <= passed' && projects <= projects'
    ensures ReadinessScore(labs, passed, projects, cert) <= ReadinessScore(labs', passed', projects', cert)
  {
    WeightedPointsMonotone(labs, passed, projects, labs', passed', projects',
      Denominator(cert.labsCount), Denominator(cert.assessmentsCount), Denominator(cert.projectsCount));
    QuotientMonotone(Points(labs, passed, projects, cert), Points(labs', passed', projects', cert), Scale(cert));
  }

  /** `Points` reaches 100 per unit of scale exactly when the weighted sum reaches 100%. */
  lemma ReachesCap(labs: nat, passed: nat, projects: nat, cert: Certification)
    requires Points(labs, passed, projects, cert) >= 100 * Scale(cert)
    ensures ReadinessScore(labs, passed, projects, cert) == 100
  {
    MulDivCancel(100, Scale(cert));
    QuotientMonotone(100 * Scale(cert), Points(labs, passed, projects, cert), Scale(cert));
  }

  lemma FullPoints(l: int, a: int, p: int)
    requires l >= 1 && a >= 1 && p >= 1
    ensures WeightedPoints(l, a, p, l, a, p) == 100 * (l * a * p)
  {
    assert l * (a * p) == l * a * p && a * (l * p) == l * a * p && p * (l * a) == l * a * p;
  }

  /** Completing at least the declared number of items in every category gives 100. */
  lemma EverythingCompleteIsFull(labs: nat, passed: nat, projects: nat, cert: Certification)
    requires labs >= Denominator(cert.labsCount)
    requires passed >= Denominator(cert.assessmentsCount)
    requires projects >= Denominator(cert.projectsCount)
    ensures ReadinessScore(labs, passed, projects, cert) == 100
  {
    var l, a, p := Denominator(cert.labsCount), Denominator(cert.assessmentsCount), Denominator(cert.projectsCount);
    FullPoints(l, a, p);
    WeightedPointsMonotone(l, a, p, labs, passed, projects, l, a, p);
    ReachesCap(labs, passed, projects, cert);
  }

  /** Nothing completed gives 0, whatever the certification's counts. */
  lemma NothingCompleteIsZero(cert: Certification)
    ensures ReadinessScore(0, 0, 0, cert) == 0
  {
  }

  /** Category ratios are not capped before weighting: labs alone, at two and a half times
      the declared lab count, already reach the final cap of 100. */
  lemma LabsAloneReachCap(labs: nat, cert: Certification)
    requires 2 * labs >= 5 * Denominator(cert.labsCount)
    ensures ReadinessScore(labs, 0, 0, cert) == 100
  {
    LabPointsReachCap(labs, Denominator(cert.labsCount), Denominator(cert.assessmentsCount), Denominator(cert.projectsCount));
    ReachesCap(labs, 0, 0, cert);
  }

  lemma LabPointsReachCap(labs: nat, l: int, a: int, p: int)
    requires l >= 1 && a >= 1 && p >= 1 && 2 * labs >= 5 * l
    ensures WeightedPoints(labs, 0, 0, l, a, p) >= 100 * (l * a * p)
  {
    ProductAtLeastOne(l, a, p);
    MulMonotone(5 * l, 2 * labs, a * p);
    assert 40 * labs * (a * p) == 20 * ((2 * labs) * (a * p));
    assert (5 * l) * (a * p) == 5 * (l * a * p);
  }

  /** The worked values for a certification with one lab, one assessment and one project
      (40, then 80, then 100), and for one with 5 labs, 3 assessments and 2 projects. */
  lemma WorkedValues()
    ensures var one := Certification("", "", "", Some(1), Some(1), Some(1));
            ReadinessScore(1, 0, 0, one) == 40 && ReadinessScore(1, 1, 0, one) == 80 && ReadinessScore(1, 1, 1, one) == 100
    ensures var cert := Certification("", "", "", Some(5), Some(3), Some(2));
            ReadinessScore(5, 3, 2, cert) == 100 && ReadinessScore(0, 0, 0, cert) == 0 && ReadinessScore(2, 1, 0, cert) == 29
  {
  }
}
