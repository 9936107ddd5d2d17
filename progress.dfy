/** The progress document kept per (user, certification) and the pure updates the
    completion handlers apply to it. */
module ProgressModel {
  import opened Common
  import opened Readiness

  /** One stored assessment submission (its `completed_at` timestamp is not modelled). */
  datatype AssessmentResult = AssessmentResult(
    assessmentId: string,
    score: int,
    passed: bool,
    weakAreas: seq<string>,
    answers: map<string, string>)

  /** A progress document (`progress_id`, `domain_scores` and `updated_at` are not modelled). */
  datatype Progress = Progress(
    labsCompleted: seq<string>,
    assessmentsCompleted: seq<AssessmentResult>,
    projectsCompleted: seq<string>,
    readiness: int)

  /** The document the handlers insert when none exists yet. */
  const EmptyProgress := Progress([], [], [], 0)

  /** Number of stored submissions marked passed. */
  function PassedCount(entries: seq<AssessmentResult>): (n: nat)
    ensures n <= |entries|
  {
    if entries == [] then 0
    else PassedCount(entries[..|entries| - 1]) + (if entries[|entries| - 1].passed then 1 else 0)
  }

  /** The stored submissions for one assessment, in stored order. */
  function EntriesFor(entries: seq<AssessmentResult>, id: string): seq<AssessmentResult> {
    if entries == [] then []
    else
      var last := entries[|entries| - 1];
      EntriesFor(entries[..|entries| - 1], id) + (if last.assessmentId == id then [last] else [])
  }

  /** `$pull: {assessments_completed: {assessment_id: id}}`: drops every entry for `id`. */
  function WithoutAssessment(entries: seq<AssessmentResult>, id: string): (r: seq<AssessmentResult>)
    ensures |r| <= |entries|
  {
    if entries == [] then []
    else
      var last := entries[|entries| - 1];
      WithoutAssessment(entries[..|entries| - 1], id) + (if last.assessmentId == id then [] else [last])
  }

  /** The `$pull` of the old result followed by the `$push` of the new one. */
  function ReplaceAssessment(entries: seq<AssessmentResult>, result: AssessmentResult): (r: seq<AssessmentResult>)
    ensures 1 <= |r| <= |entries| + 1 && r[|r| - 1] == result
  {
    WithoutAssessment(entries, result.assessmentId) + [result]
  }

  /** At most one stored submission per assessment. */
  ghost predicate DistinctAssessments(entries: seq<AssessmentResult>) {
    forall id :: |EntriesFor(entries, id)| <= 1
  }

  /** The shape every stored document keeps: no lab or project is listed twice, at most one
      result per assessment is stored, and readiness lies in 0..100. */
  ghost predicate WellFormed(p: Progress) {
    && NoDuplicates(p.labsCompleted)
    && NoDuplicates(p.projectsCompleted)
    && DistinctAssessments(p.assessmentsCompleted)
    && 0 <= p.readiness <= 100
  }

  /** The calculator applied to a document. */
  function ReadinessOf(p: Progress, cert: Certification): (r: int)
    ensures 0 <= r <= 100
  {
    ReadinessScore(|p.labsCompleted|, PassedCount(p.assessmentsCompleted), |p.projectsCompleted|, cert)
  }

  lemma {:induction false} EntriesForAppend(entries: seq<AssessmentResult>, extra: seq<AssessmentResult>, id: string)
    ensures EntriesFor(entries + extra, id) == EntriesFor(entries, id) + EntriesFor(extra, id)
    ensures PassedCount(entries + extra) == PassedCount(entries) + PassedCount(extra)
    decreases |extra|
  {
    if extra == [] {
      assert entries + extra == entries;
    } else {
      var init := extra[..|extra| - 1];
      assert (entries + extra)[..|entries + extra| - 1] == entries + init;
      EntriesForAppend(entries, init, id);
    }
  }

  /** Pulling `id` removes exactly its entries and keeps every other assessment's. */
  lemma {:induction false} WithoutAssessmentEntries(entries: seq<AssessmentResult>, id: string, other: string)
    ensures EntriesFor(WithoutAssessment(entries, id), id) == []
    ensures other != id ==> EntriesFor(WithoutAssessment(entries, id), other) == EntriesFor(entries, other)
    ensures |WithoutAssessment(entries, id)| + |EntriesFor(entries, id)| == |entries|
    ensures PassedCount(WithoutAssessment(entries, id)) + PassedCount(EntriesFor(entries, id)) == PassedCount(entries)
  {
    if entries != [] {
      var init, last := entries[..|entries| - 1], entries[|entries| - 1];
      WithoutAssessmentEntries(init, id, other);
      var rest := if last.assessmentId == id then [] else [last];
      EntriesForAppend(WithoutAssessment(init, id), rest, id);
      EntriesForAppend(WithoutAssessment(init, id), rest, other);
      EntriesForAppend(EntriesFor(init, id), if last.assessmentId == id then [last] else [], id);
    }
  }

  /** The `$pull` keeps exactly the entries of other assessments. */
  lemma {:induction false} PulledMembers(entries: seq<AssessmentResult>, id: string)
    ensures forall e :: e in WithoutAssessment(entries, id) <==> e in entries && e.assessmentId != id
  {
    if entries != [] {
      var init, last := entries[..|entries| - 1], entries[|entries| - 1];
      PulledMembers(init, id);
      assert entries == init + [last];
    }
  }

  /** After resubmission the stored results are the new one and the old results of other
      assessments. */
  lemma ReplacedMembers(entries: seq<AssessmentResult>, result: AssessmentResult)
    ensures forall e :: e in ReplaceAssessment(entries, result)
              <==> e == result || (e in entries && e.assessmentId != result.assessmentId)
  {
    PulledMembers(entries, result.assessmentId);
  }

  /** Resubmission: afterwards the new result is the only entry for its assessment, and the
      entries of every other assessment are as they were. */
  lemma ReplaceAssessmentEntries(entries: seq<AssessmentResult>, result: AssessmentResult, other: string)
    ensures EntriesFor(ReplaceAssessment(entries, result), result.assessmentId) == [result]
    ensures other != result.assessmentId ==>
              EntriesFor(ReplaceAssessment(entries, result), other) == EntriesFor(entries, other)
  {
    var id := result.assessmentId;
    WithoutAssessmentEntries(entries, id, other);
    EntriesForAppend(WithoutAssessment(entries, id), [result], id);
    EntriesForAppend(WithoutAssessment(entries, id), [result], other);
    assert EntriesFor([result], id) == EntriesFor([], id) + [result];
    assert other != id ==> EntriesFor([result], other) == [];
  }

  /** Resubmission keeps the list length when an entry for the assessment existed, and adds
      one entry otherwise. */
  lemma ReplaceAssessmentLength(entries: seq<AssessmentResult>, result: AssessmentResult)
    requires DistinctAssessments(entries)
    ensures |ReplaceAssessment(entries, result)|
            == if exists i :: 0 <= i < |entries| && entries[i].assessmentId == result.assessmentId
               then |entries| else |entries| + 1
  {
    var id := result.assessmentId;
    WithoutAssessmentEntries(entries, id, id);
    assert |EntriesFor(entries, id)| <= 1;
    if exists i :: 0 <= i < |entries| && entries[i].assessmentId == id {
      var i :| 0 <= i < |entries| && entries[i].assessmentId == id;
      EntriesForPresent(entries, i);
    } else {
      EntriesForNone(entries, id);
    }
  }

  /** A stored entry is among the entries for its own assessment. */
  lemma EntriesForPresent(entries: seq<AssessmentResult>, i: nat)
    requires i < |entries|
    ensures |EntriesFor(entries, entries[i].assessmentId)| >= 1
  {
    var id := entries[i].assessmentId;
    assert entries == entries[..i] + ([entries[i]] + entries[i + 1..]);
    EntriesForAppend(entries[..i], [entries[i]] + entries[i + 1..], id);
    EntriesForAppend([entries[i]], entries[i + 1..], id);
    assert EntriesFor([entries[i]], id) == [entries[i]] by {
      assert [entries[i]][..0] == [];
    }
  }

  lemma {:induction false} EntriesForNone(entries: seq<AssessmentResult>, id: string)
    requires forall i :: 0 <= i < |entries| ==> entries[i].assessmentId != id
    ensures EntriesFor(entries, id) == []
  {
    if entries != [] {
      EntriesForNone(entries[..|entries| - 1], id);
    }
  }

  /** Resubmission preserves "at most one entry per assessment". */
  lemma ReplaceKeepsDistinct(entries: seq<AssessmentResult>, result: AssessmentResult)
    requires DistinctAssessments(entries)
    ensures DistinctAssessments(ReplaceAssessment(entries, result))
  {
    forall id ensures |EntriesFor(ReplaceAssessment(entries, result), id)| <= 1 {
      ReplaceAssessmentEntries(entries, result, id);
    }
  }

  /** The passed count after a resubmission: the old entries for the assessment stop
      counting and the new one counts only if it passed. */
  lemma ReplacePassedCount(entries: seq<AssessmentResult>, result: AssessmentResult)
    ensures PassedCount(ReplaceAssessment(entries, result))
            == PassedCount(entries) - PassedCount(EntriesFor(entries, result.assessmentId))
               + (if result.passed then 1 else 0)
  {
    var id := result.assessmentId;
    WithoutAssessmentEntries(entries, id, id);
    EntriesForAppend(WithoutAssessment(entries, id), [result], id);
    assert PassedCount([result]) == PassedCount([result][..0]) + (if result.passed then 1 else 0);
  }

  /** `labs_completed` after completing a lab: the id is appended only if absent. */
  function WithLab(p: Progress, labId: string): (r: Progress)
    ensures forall x :: x in r.labsCompleted <==> x in p.labsCompleted || x == labId
    ensures |p.labsCompleted| <= |r.labsCompleted| <= |p.labsCompleted| + 1
    ensures r.assessmentsCompleted == p.assessmentsCompleted && r.projectsCompleted == p.projectsCompleted
    ensures r.readiness == p.readiness
  {
    p.(labsCompleted := AppendIfAbsent(p.labsCompleted, labId))
  }

  /** `projects_completed` after completing a project: the id is appended only if absent. */
  function WithProject(p: Progress, projectId: string): (r: Progress)
    ensures forall x :: x in r.projectsCompleted <==> x in p.projectsCompleted || x == projectId
    ensures |p.projectsCompleted| <= |r.projectsCompleted| <= |p.projectsCompleted| + 1
    ensures r.labsCompleted == p.labsCompleted && r.assessmentsCompleted == p.assessmentsCompleted
    ensures r.readiness == p.readiness
  {
    p.(projectsCompleted := AppendIfAbsent(p.projectsCompleted, projectId))
  }

  /** `assessments_completed` after a submission: the new result replaces the old one. */
  function WithResult(p: Progress, result: AssessmentResult): (r: Progress)
    ensures result in r.assessmentsCompleted
    ensures r.labsCompleted == p.labsCompleted && r.projectsCompleted == p.projectsCompleted
    ensures r.readiness == p.readiness
  {
    p.(assessmentsCompleted := ReplaceAssessment(p.assessmentsCompleted, result))
  }

  /** Completing the same lab twice is the same as completing it once. */
  lemma WithLabIdempotent(p: Progress, labId: string)
    ensures WithLab(WithLab(p, labId), labId) == WithLab(p, labId)
    ensures labId in p.labsCompleted ==> WithLab(p, labId) == p
  {
    AppendIfAbsentIdempotent(p.labsCompleted, labId);
  }

  /** Completing the same project twice is the same as completing it once. */
  lemma WithProjectIdempotent(p: Progress, projectId: string)
    ensures WithProject(WithProject(p, projectId), projectId) == WithProject(p, projectId)
    ensures projectId in p.projectsCompleted ==> WithProject(p, projectId) == p
  {
    AppendIfAbsentIdempotent(p.projectsCompleted, projectId);
  }

  /** Completing a lab or a project never lowers readiness. */
  lemma CompletionNeverLowersReadiness(p: Progress, id: string, cert: Certification)
    ensures ReadinessOf(p, cert) <= ReadinessOf(WithLab(p, id), cert)
    ensures ReadinessOf(p, cert) <= ReadinessOf(WithProject(p, id), cert)
  {
    var labs, passed, projects := |p.labsCompleted|, PassedCount(p.assessmentsCompleted), |p.projectsCompleted|;
    ReadinessMonotone(labs, passed, projects, |WithLab(p, id).labsCompleted|, passed, projects, cert);
    ReadinessMonotone(labs, passed, projects, labs, passed, |WithProject(p, id).projectsCompleted|, cert);
  }

  /** A passing submission never lowers readiness when at most one entry per assessment was
      stored; a failing first submission leaves it unchanged. */
  lemma SubmissionEffectOnReadiness(p: Progress, result: AssessmentResult, cert: Certification)
    requires DistinctAssessments(p.assessmentsCompleted)
    ensures result.passed ==> ReadinessOf(p, cert) <= ReadinessOf(WithResult(p, result), cert)
    ensures !result.passed && EntriesFor(p.assessmentsCompleted, result.assessmentId) == []
            ==> ReadinessOf(WithResult(p, result), cert) == ReadinessOf(p, cert)
  {
    var entries := p.assessmentsCompleted;
    ReplacePassedCount(entries, result);
    assert |EntriesFor(entries, result.assessmentId)| <= 1;
    assert PassedCount(EntriesFor(entries, result.assessmentId)) <= 1;
    var passed, passed' := PassedCount(entries), PassedCount(WithResult(p, result).assessmentsCompleted);
    if result.passed {
      ReadinessMonotone(|p.labsCompleted|, passed, |p.projectsCompleted|, |p.labsCompleted|, passed', |p.projectsCompleted|, cert);
    }
  }

  /** Resubmitting a failing result over a passing one can lower readiness: with one lab, one
      assessment and one project declared, a learner who had passed drops from 80 to 40. */
  lemma FailingResubmissionCanLowerReadiness()
    ensures var cert := Certification("", "", "", Some(1), Some(1), Some(1));
            var before := Progress(["lab"], [AssessmentResult("quiz", 100, true, [], map[])], [], 80);
            var after := WithResult(before, AssessmentResult("quiz", 0, false, ["General"], map[]));
            ReadinessOf(before, cert) == 80 && ReadinessOf(after, cert) == 40
  {
    var cert := Certification("", "", "", Some(1), Some(1), Some(1));
    var old0 := AssessmentResult("quiz", 100, true, [], map[]);
    var new0 := AssessmentResult("quiz", 0, false, ["General"], map[]);
    var before := Progress(["lab"], [old0], [], 80);
    var after := WithResult(before, new0);
    assert after.assessmentsCompleted == [new0] by {
      assert [old0][..0] == [];
      assert WithoutAssessment([old0], "quiz") == [];
    }
    assert ReadinessOf(before, cert) == 80 by {
      assert [old0][..0] == [];
      assert PassedCount([old0]) == 1;
      WorkedValues();
    }
    assert ReadinessOf(after, cert) == 40 by {
      assert [new0][..0] == [];
      assert PassedCount([new0]) == 0;
      WorkedValues();
    }
  }

}
