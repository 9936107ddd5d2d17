/** The learner dashboard: one row per progress document (at most the first 100 the query
    returns), joined with its certification, and totals over the rows. */
module Dashboard {
  import opened Common
  import opened Readiness
  import opened ProgressModel

  /** One of the learner's progress documents, with the certification it tracks. */
  datatype ProgressEntry = ProgressEntry(certId: string, progress: Progress)

  /** One entry of the `certifications` list of the response (`domain_scores` is not
      modelled). A missing certification shows as "Unknown" with zero totals. */
  datatype DashboardRow = DashboardRow(
    certId: string,
    certName: string,
    vendor: string,
    readiness: int,
    labsCompleted: nat,
    labsTotal: int,
    assessmentsPassed: nat,
    assessmentsTotal: int,
    projectsCompleted: nat,
    projectsTotal: int)

  /** The `stats` object of the response. */
  datatype DashboardStats = DashboardStats(
    totalLabsCompleted: nat,
    totalAssessmentsPassed: nat,
    totalProjectsCompleted: nat,
    certificationsInProgress: nat)

  /** `to_list(100)`: the query yields at most this many documents. */
  const QueryLimit := 100

  /** The documents the query yields, in the order the database returns them. */
  function Listed(docs: seq<ProgressEntry>): (listed: seq<ProgressEntry>)
    ensures |listed| <= QueryLimit
    ensures |docs| <= QueryLimit ==> listed == docs
    ensures |docs| > QueryLimit ==> |listed| == QueryLimit
    ensures listed == docs[..|listed|]
  {
    if |docs| <= QueryLimit then docs else docs[..QueryLimit]
  }

  /** The row shown for one document. A certification missing from the catalogue shows as
      "Unknown" with an empty vendor and zero totals; a missing count shows as 0. */
  function RowFor(e: ProgressEntry, certs: map<string, Certification>): (row: DashboardRow)
    ensures row.certId == e.certId && row.readiness == e.progress.readiness
    ensures row.labsCompleted == |e.progress.labsCompleted|
    ensures row.assessmentsPassed == PassedCount(e.progress.assessmentsCompleted) <= |e.progress.assessmentsCompleted|
    ensures row.projectsCompleted == |e.progress.projectsCompleted|
    ensures e.certId !in certs ==>
              row.certName == "Unknown" && row.vendor == "" && row.labsTotal == 0
              && row.assessmentsTotal == 0 && row.projectsTotal == 0
    ensures e.certId in certs ==>
              var c := certs[e.certId];
              && row.certName == c.name && row.vendor == c.vendor
              && row.labsTotal == (if c.labsCount.Some? then c.labsCount.value else 0)
              && row.assessmentsTotal == (if c.assessmentsCount.Some? then c.assessmentsCount.value else 0)
              && row.projectsTotal == (if c.projectsCount.Some? then c.projectsCount.value else 0)
              && row.labsTotal <= Denominator(c.labsCount)
              && row.assessmentsTotal <= Denominator(c.assessmentsCount)
              && row.projectsTotal <= Denominator(c.projectsCount)
              && (row.labsTotal >= 1 ==> row.labsTotal == Denominator(c.labsCount))
              && (row.assessmentsTotal >= 1 ==> row.assessmentsTotal == Denominator(c.assessmentsCount))
              && (row.projectsTotal >= 1 ==> row.projectsTotal == Denominator(c.projectsCount))
  {
    var p := e.progress;
    var labs, passed, projects := |p.labsCompleted|, PassedCount(p.assessmentsCompleted), |p.projectsCompleted|;
    if e.certId in certs then
      var c := certs[e.certId];
      DashboardRow(e.certId, c.name, c.vendor, p.readiness,
                   labs, c.labsCount.GetOr(0), passed, c.assessmentsCount.GetOr(0), projects, c.projectsCount.GetOr(0))
    else
      DashboardRow(e.certId, "Unknown", "", p.readiness, labs, 0, passed, 0, projects, 0)
  }

  /** A count missing from the catalogue entry shows as 0 on the dashboard, while the
      calculator reads the same missing count as 1. */
  lemma MissingCountDefaults(e: ProgressEntry, certs: map<string, Certification>)
    requires e.certId in certs
    ensures var row, c := RowFor(e, certs), certs[e.certId];
            && (c.labsCount.None? ==> row.labsTotal == 0 && Denominator(c.labsCount) == 1)
            && (c.assessmentsCount.None? ==> row.assessmentsTotal == 0 && Denominator(c.assessmentsCount) == 1)
            && (c.projectsCount.None? ==> row.projectsTotal == 0 && Denominator(c.projectsCount) == 1)
  {
  }

  /** The three quantities the dashboard totals. */
  datatype Measure = Labs | PassedAssessments | Projects

  /** What one document contributes to a total. */
  function Count(p: Progress, m: Measure): nat {
    match m
    case Labs => |p.labsCompleted|
    case PassedAssessments => PassedCount(p.assessmentsCompleted)
    case Projects => |p.projectsCompleted|
  }

  /** A total over a list of documents. */
  function Total(docs: seq<ProgressEntry>, m: Measure): nat {
    if docs == [] then 0 else Total(docs[..|docs| - 1], m) + Count(docs[|docs| - 1].progress, m)
  }

  /** `GET /dashboard`: builds the rows in query order, then sums them. */
  method GetDashboard(docs: seq<ProgressEntry>, certs: map<string, Certification>)
    returns (rows: seq<DashboardRow>, stats: DashboardStats)
    ensures |rows| == |Listed(docs)| <= QueryLimit
    ensures forall i :: 0 <= i < |rows| ==> rows[i] == RowFor(Listed(docs)[i], certs)
    ensures stats.totalLabsCompleted == Total(Listed(docs), Labs)
    ensures stats.totalAssessmentsPassed == Total(Listed(docs), PassedAssessments)
    ensures stats.totalProjectsCompleted == Total(Listed(docs), Projects)
    ensures stats.certificationsInProgress == |rows|
  {
    var listed := Listed(docs);
    rows := BuildRows(listed, certs);
    var labs, passed, projects := SumRows(listed, rows, certs);
    stats := DashboardStats(labs, passed, projects, |rows|);
  }

  /** The three `sum(...)` over `dashboard_data`: each total of the shown counts equals the
      total of the corresponding measure over the documents the rows were built from. */
  method SumRows(listed: seq<ProgressEntry>, rows: seq<DashboardRow>, certs: map<string, Certification>)
    returns (labs: nat, passed: nat, projects: nat)
    requires |rows| == |listed|
    requires forall j :: 0 <= j < |rows| ==> rows[j] == RowFor(listed[j], certs)
    ensures labs == Total(listed, Labs)
    ensures passed == Total(listed, PassedAssessments)
    ensures projects == Total(listed, Projects)
  {
    labs, passed, projects := 0, 0, 0;
    for i := 0 to |rows|
      invariant labs == Total(listed[..i], Labs)
      invariant passed == Total(listed[..i], PassedAssessments)
      invariant projects == Total(listed[..i], Projects)
    {
      TotalStep(listed, i, Labs);
      TotalStep(listed, i, PassedAssessments);
      TotalStep(listed, i, Projects);
      labs := labs + rows[i].labsCompleted;
      passed := passed + rows[i].assessmentsPassed;
      projects := projects + rows[i].projectsCompleted;
    }
    assert listed[..|listed|] == listed;
  }

  /** The loop building `dashboard_data`: one row per document, in order. */
  method BuildRows(listed: seq<ProgressEntry>, certs: map<string, Certification>) returns (rows: seq<DashboardRow>)
    ensures |rows| == |listed|
    ensures forall j :: 0 <= j < |rows| ==> rows[j] == RowFor(listed[j], certs)
  {
    rows := [];
    for i := 0 to |listed|
      invariant |rows| == i
      invariant forall j :: 0 <= j < i ==> rows[j] == RowFor(listed[j], certs)
    {
      rows := rows + [RowFor(listed[i], certs)];
    }
  }

  /** Extending a prefix by one document adds that document's counts to each total. */
  lemma TotalStep(docs: seq<ProgressEntry>, i: nat, m: Measure)
    requires i < |docs|
    ensures Total(docs[..i + 1], m) == Total(docs[..i], m) + Count(docs[i].progress, m)
  {
    assert docs[..i + 1][..i] == docs[..i];
  }

  /** Totals add up over concatenated lists. */
  lemma {:induction false} TotalAppend(a: seq<ProgressEntry>, b: seq<ProgressEntry>, m: Measure)
    ensures Total(a + b, m) == Total(a, m) + Total(b, m)
    decreases |b|
  {
    if b == [] {
      assert a + b == a;
    } else {
      assert (a + b)[..|a + b| - 1] == a + b[..|b| - 1];
      TotalAppend(a, b[..|b| - 1], m);
    }
  }

  /** The totals do not depend on the order in which the database returns the documents. */
  lemma {:induction false} TotalOrderIndependent(a: seq<ProgressEntry>, b: seq<ProgressEntry>, m: Measure)
    requires multiset(a) == multiset(b)
    ensures Total(a, m) == Total(b, m)
    decreases |a|
  {
    if a != [] {
      var init, x := a[..|a| - 1], a[|a| - 1];
      SharedElement(a, b);
      var k :| 0 <= k < |b| && b[k] == x;
      var rest := b[..k] + b[k + 1..];
      assert Total(init, m) == Total(rest, m) by {
        WithoutElement(a, |a| - 1);
        WithoutElement(b, k);
        TotalOrderIndependent(init, rest, m);
      }
      TotalWithoutElement(b, k, m);
    }
  }

  /** The last document of a list is somewhere in any reordering of it. */
  lemma SharedElement(a: seq<ProgressEntry>, b: seq<ProgressEntry>)
    requires a != [] && multiset(a) == multiset(b)
    ensures a[|a| - 1] in b
  {
    assert a[|a| - 1] in multiset(a);
  }

  /** Dropping the element at `k` removes one copy of it from the multiset. */
  lemma WithoutElement(s: seq<ProgressEntry>, k: nat)
    requires k < |s|
    ensures multiset(s[..k] + s[k + 1..]) == multiset(s) - multiset{s[k]}
  {
    assert s == s[..k] + [s[k]] + s[k + 1..];
  }

  /** Dropping the document at `k` lowers a total by that document's count. */
  lemma TotalWithoutElement(s: seq<ProgressEntry>, k: nat, m: Measure)
    requires k < |s|
    ensures Total(s, m) == Total(s[..k] + s[k + 1..], m) + Count(s[k].progress, m)
  {
    assert s == s[..k] + [s[k]] + s[k + 1..];
    TotalAppend(s[..k] + [s[k]], s[k + 1..], m);
    TotalAppend(s[..k], [s[k]], m);
    TotalAppend(s[..k], s[k + 1..], m);
    assert Total([s[k]], m) == Count(s[k].progress, m) by {
      assert [s[k]][..0] == [];
    }
  }

  /** A row whose document holds the calculator's readiness shows that value, and a row
      showing every declared lab, assessment and project done (each total at least 1) shows
      100. */
  lemma RowReadiness(e: ProgressEntry, certs: map<string, Certification>)
    requires e.certId in certs
    requires e.progress.readiness == ReadinessOf(e.progress, certs[e.certId])
    ensures var row, cert := RowFor(e, certs), certs[e.certId];
            && row.readiness == ReadinessScore(row.labsCompleted, row.assessmentsPassed, row.projectsCompleted, cert)
            && ((&& row.labsTotal >= 1 && row.assessmentsTotal >= 1 && row.projectsTotal >= 1
                 && row.labsCompleted >= row.labsTotal && row.assessmentsPassed >= row.assessmentsTotal
                 && row.projectsCompleted >= row.projectsTotal) ==> row.readiness == 100)
  {
    var row, cert := RowFor(e, certs), certs[e.certId];
    if row.labsTotal >= 1 && row.assessmentsTotal >= 1 && row.projectsTotal >= 1
       && row.labsCompleted >= row.labsTotal && row.assessmentsPassed >= row.assessmentsTotal
       && row.projectsCompleted >= row.projectsTotal {
      EverythingCompleteIsFull(row.labsCompleted, row.assessmentsPassed, row.projectsCompleted, cert);
    }
  }
}
