# Learner progress engine — a verified Dafny model

This project models the learner-progress core of the certification-training backend
(`backend/server.py`). For each (user, certification) pair the backend keeps one progress
document. The document lists the completed labs, the assessment results and the completed
projects, and it holds a cached 0-100 "readiness" percentage. The model covers:

- the **readiness calculator** (`recalculate_readiness`). Labs, passed assessments and projects
  are each divided by the certification's declared count, guarded by `max(count, 1)`. The
  three ratios are weighted 0.4 / 0.4 / 0.2, truncated to an integer and capped at 100;
- the **assessment scorer**, the grading loop of `submit_assessment`;
- the **progress updates** of the three completion handlers:
  - they create the document lazily;
  - lab and project ids are appended only if absent;
  - a new assessment result replaces the stored one rather than being appended;
  - readiness is recomputed afterwards;
- the **certificate gate** (`generate_certificate`) and the **bookmark toggle**;
- the **dashboard** aggregation.

The calculator, the scorer and the progress transitions are pure functions with lemmas
(`readiness.dfy`, `scoring.dfy`, `progress.dfy`). The grading loop and the dashboard loops are
methods proved against prefix-recursive specification functions. The collections the handlers
update in place (`user_progress`, `user_bookmarks`, `user_certificates`) are fields of the class
`LearningStore.Store`. Its methods carry the class invariant `Valid()`:

- every stored document's lab and project lists hold no duplicates;
- at most one result per assessment is stored;
- readiness lies in 0..100;
- readiness equals the calculator's value whenever the certification exists;
- bookmarks are distinct;
- every issued certificate records readiness of at least 80.

Arithmetic is exact. The calculator is computed over cross-multiplied integers.
`Readiness.ReadinessIsTruncatedWeightedPercent` proves that this equals
`min(100, int(weighted sum))` of the source's formula evaluated over `real`.

Points of the calculator worth stating, because a natural reading of the formula differs:

- No category ratio is capped before weighting; in particular the labs ratio is not clamped
  with `min(1, …)`. Extra labs raise the weighted sum, and only the final `min(100, …)`
  bounds it (`Readiness.LabsAloneReachCap`).
- Only the weighted sum is truncated, not each category percentage. For 5/3/2 declared with
  2 labs and 1 passed assessment done, both readings give 29 (`Readiness.WorkedValues`).
- A missing count reads as 1 in the calculator (`max(get(count, 1), 1)`) but as 0 on the
  dashboard (`get(count, 0)`) (`Dashboard.MissingCountDefaults`).

## Model

| member | source | states |
|---|---|---|
| Common.AppendIfAbsent | backend/server.py:323-330 | the guarded `$push`: the id is present afterwards; the list is unchanged when the id was present and grows by exactly that id at the end otherwise; the elements are the old ones plus the id; no duplicates are introduced |
| Common.AppendIfAbsentIdempotent | backend/server.py:492-499 | adding the same id twice equals adding it once |
| Common.OccursOnce | backend/server.py:1343-1349 | in a duplicate-free list a present element occurs exactly once |
| Common.RemoveFirst | backend/server.py:1352-1353 | `delete_one`: when the element is present, the result's multiset is the old one minus one copy; when it is absent, the list is unchanged |
| Common.RemoveFirstFromDistinct | backend/server.py:1352-1353 | deleting from a duplicate-free list leaves no occurrence and no duplicate |
| Common.Dedup | backend/server.py:395 | `list(set(..))`: no duplicates, exactly the same elements, never longer |
| Readiness.Denominator | backend/server.py:691-697 | `max(get(count, 1), 1)` is at least 1 (no division by zero); a declared count of at least 1 is used as is; a missing count and a declared count below 1 both read as exactly 1 |
| Readiness.ReadinessScore | backend/server.py:687-705 | readiness is an integer in 0..100 |
| Readiness.ReadinessIsTruncatedWeightedPercent | backend/server.py:687-705 | the integer computation equals `min(100, int(labs/L*100*0.4 + passed/A*100*0.4 + projects/P*100*0.2))` over exact reals |
| Readiness.ReadinessMonotone | backend/server.py:691-705 | more labs, passed assessments or projects never lower readiness |
| Readiness.EverythingCompleteIsFull | backend/server.py:691-705 | completing at least every declared lab, assessment and project gives 100 |
| Readiness.NothingCompleteIsZero | backend/server.py:691-705 | nothing completed gives 0 |
| Readiness.LabsAloneReachCap | backend/server.py:691-705 | per-category ratios are uncapped: 2.5 times the declared labs alone reach the cap of 100 |
| Readiness.WorkedValues | backend/server.py:687-705 | 1/1/1 declared: lab only 40, plus a passed assessment 80, plus the project 100; 5/3/2 declared: all done 100, nothing done 0, 2 labs and 1 assessment 29 |
| Scoring.CorrectPlusMissed | backend/server.py:376-385 | every question counts either as correct or as one missed topic, so the incorrect count is total minus correct |
| Scoring.MissedTopicsExact | backend/server.py:380-385 | a topic is recorded exactly when some incorrectly answered question carries it (default "General") |
| Scoring.TallyAnswers | backend/server.py:376-385 | the loop's `correct` is the number of answers equal to `correct_answer`, and `weak_areas` lists the topics of the other questions in order |
| Scoring.Percent | backend/server.py:387 | score is 0 without questions; otherwise it is the floor of 100·correct/total (score·total ≤ 100·correct < (score+1)·total), within 0..100 |
| Scoring.Grade | backend/server.py:371-395 | an unknown assessment fails with not-found; otherwise: the correct count; total; incorrect = total − correct; score = Percent in 0..100; passed iff score ≥ threshold; weak areas duplicate-free and exactly the missed topics |
| ProgressModel.WithoutAssessment | backend/server.py:420-423 | the `$pull` never lengthens the list |
| ProgressModel.PulledMembers | backend/server.py:420-423 | after the `$pull` an entry is present exactly when it was present before and belongs to another assessment |
| ProgressModel.ReplaceAssessment | backend/server.py:419-430 | after the `$pull` and the `$push` the list is non-empty, at most one longer than before, and ends with the new result |
| ProgressModel.ReplacedMembers | backend/server.py:419-430 | after resubmission an entry is present exactly when it is the new result or an earlier entry of another assessment |
| ProgressModel.WithLab | backend/server.py:323-330 | the lab list afterwards holds exactly the old labs and the new id, and grows by at most one; results, projects and readiness are untouched |
| ProgressModel.WithProject | backend/server.py:492-499 | the project list afterwards holds exactly the old projects and the new id, and grows by at most one; labs, results and readiness are untouched |
| ProgressModel.WithResult | backend/server.py:419-430 | the new result is stored; labs, projects and readiness are untouched until the recomputation |
| ProgressModel.PassedCount | backend/server.py:694 | only entries marked passed count, so the count never exceeds the number of entries |
| ProgressModel.WithoutAssessmentEntries | backend/server.py:420-423 | the `$pull` removes every entry for the id, keeps every other id's entries, and shrinks the list (and the passed count) by exactly the removed entries |
| ProgressModel.ReplaceAssessmentEntries | backend/server.py:419-430 | after resubmission the new result is the only entry for its assessment, and other assessments' entries are unchanged |
| ProgressModel.ReplaceAssessmentLength | backend/server.py:419-430 | with at most one entry per assessment, resubmission keeps the list length when an entry existed and adds one otherwise |
| ProgressModel.ReplaceKeepsDistinct | backend/server.py:419-430 | resubmission preserves "at most one entry per assessment" |
| ProgressModel.ReplacePassedCount | backend/server.py:419-430 | the passed count after resubmission: the old entries for the id stop counting, and the new result counts iff passed |
| ProgressModel.WithLabIdempotent | backend/server.py:323-330 | completing the same lab twice equals completing it once; an already completed lab leaves the document unchanged |
| ProgressModel.WithProjectIdempotent | backend/server.py:492-499 | completing the same project twice equals completing it once; an already completed project leaves the document unchanged |
| ProgressModel.CompletionNeverLowersReadiness | backend/server.py:323-333 | completing a lab or a project never lowers the recomputed readiness |
| ProgressModel.SubmissionEffectOnReadiness | backend/server.py:419-432 | a passing submission never lowers readiness; a failing first submission leaves it unchanged |
| ProgressModel.FailingResubmissionCanLowerReadiness | backend/server.py:419-432 | replacing a passing result by a failing one can lower readiness (80 to 40 with 1/1/1 declared) |
| LearningStore.Store.Recalculated | backend/server.py:680-710 | the recomputation changes only readiness; with the certification present readiness is the calculator's value for the document's own lists, and without it the document is unchanged |
| LearningStore.Store.RecalculateReadiness | backend/server.py:675-710 | no document or no certification: nothing is written; otherwise only that document's readiness is set, to the calculator's value |
| LearningStore.Store.EnsureProgress | backend/server.py:309-321 | lazily inserts the empty document (no lists, readiness 0) and touches nothing else |
| LearningStore.Store.CompleteLab | backend/server.py:303-338 | the document (created if missing) gains the lab id once and is recomputed; other documents are untouched; readiness never drops; the invariant is kept |
| LearningStore.Store.CompleteProject | backend/server.py:472-507 | the document (created if missing) gains the project id once and is recomputed; other documents are untouched; readiness never drops; the invariant is kept |
| LearningStore.Store.WriteLab | backend/server.py:309-333 | lazy creation, the guarded `$push` and the recomputation together store exactly the recomputed document with the lab added, and change no other document |
| LearningStore.Store.WriteProject | backend/server.py:478-501 | lazy creation, the guarded `$push` and the recomputation together store exactly the recomputed document with the project added, and change no other document |
| LearningStore.Store.WriteResult | backend/server.py:405-432 | lazy creation, the `$pull`, the `$push` and the recomputation together store exactly the recomputed document with the result replacing the old ones, and change no other document |
| LearningStore.Store.PushLab | backend/server.py:323-330 | the guarded `$push` changes only that document, and only its lab list, which gains the id once |
| LearningStore.Store.PushProject | backend/server.py:492-499 | the guarded `$push` changes only that document, and only its project list, which gains the id once |
| LearningStore.Store.LabConsistent | backend/server.py:323-333 | after a lab is added and readiness recomputed, the document is consistent again, and a consistent document's readiness does not drop |
| LearningStore.Store.ProjectConsistent | backend/server.py:492-501 | after a project is added and readiness recomputed, the document is consistent again, and a consistent document's readiness does not drop |
| LearningStore.Store.SubmitAssessment | backend/server.py:369-441 | an unknown assessment fails before any write; otherwise the grading of `Scoring.Grade` is returned, with the assessment's own pass threshold echoed, and stored as the only result for that assessment, then readiness is recomputed; the invariant is kept |
| LearningStore.Store.RecordResult | backend/server.py:400-432 | lazy creation, pull-then-push of the result, recompute: only that document changes, to the recomputed document with the result replacing the old ones; the invariant is kept |
| LearningStore.Store.ResultWriteConsistent | backend/server.py:419-432 | writing a recorded and recomputed document into a consistent collection keeps every document consistent |
| LearningStore.Store.PullAndPushResult | backend/server.py:419-430 | the two updates together replace the document's entries for the assessment by the new result |
| LearningStore.Store.ResultConsistent | backend/server.py:419-432 | a recorded and recomputed document keeps distinct lists, one entry per assessment, and calculator readiness |
| LearningStore.Store.ResultIsSole | backend/server.py:419-432 | after a submission is recorded and recomputed, the new result is its assessment's only stored entry |
| LearningStore.Store.ToggleBookmark | backend/server.py:1336-1354 | `bookmarked` true leaves exactly one (user, lab) bookmark and false leaves none; both are no-ops when already so; other bookmarks are untouched; the reply echoes the flag |
| LearningStore.Store.GenerateCertificate | backend/server.py:1441-1490 | order of checks: no document or readiness < 80 fails, then a missing certification fails; an existing certificate is returned and nothing is inserted; otherwise exactly one certificate is added, numbered "ST365-" plus the token, with its share URL and the certification's name/code/vendor; readiness and the lab, passed-assessment and project counts are copied from the document |
| Dashboard.Listed | backend/server.py:513-516 | `to_list(100)`: the first at most 100 documents, in query order |
| Dashboard.RowFor | backend/server.py:527-541 | a row echoes the document's certification id and readiness, and shows the lengths of its lab and project lists and its number of passed entries (never more than the stored submissions); a missing certification shows "Unknown", an empty vendor and zero totals; a known one shows its name and vendor, and each total is the declared count, or 0 when the count is missing (`get(count, 0)`) |
| Dashboard.MissingCountDefaults | backend/server.py:535-539 | a count missing from the catalogue entry shows as 0 on the dashboard while the calculator reads it as 1 |
| Dashboard.BuildRows | backend/server.py:526-541 | the loop yields one row per document, in order |
| Dashboard.SumRows | backend/server.py:543-545 | summing the rows' shown counts gives the totals of labs, passed assessments and projects over the documents |
| Dashboard.GetDashboard | backend/server.py:511-555 | one row per listed document, in order; each stat is the total of its measure over the listed documents; certifications in progress is the number of rows |
| Dashboard.TotalAppend | backend/server.py:543-545 | totals are additive over concatenation |
| Dashboard.TotalOrderIndependent | backend/server.py:543-545 | the sums over the listed rows do not depend on the order of those rows |
| Dashboard.RowReadiness | backend/server.py:533-539 | a row of a consistent document shows the calculator's value for its own counts, and shows 100 when every declared (non-zero) total is reached |

## Left out

- Database access, sessions, OAuth, cookies and the HTTP framework. The collections are in-memory fields of `LearningStore.Store`, and the caller's identity is a parameter.
- Timestamps (`updated_at`, `completed_at`, `issued_at`, `created_at`), `progress_id`, `domain_scores` and the echoed `user` object are not modelled. The random part of a certificate number is the parameter `token`.
- Concurrency: handlers run one at a time. Interleaved read-modify-write requests are not modelled.
- Readiness.ReadinessScore: computed exactly over integers. Python's float arithmetic and its rounding are not modelled.
- Scoring.Percent: exact floor of 100·correct/total. Python's `int((correct/total)*100)` in floats can be one lower for some ratios (29/100 gives 28.999… and so 28), and this is not modelled.
- Scoring.Grade: `list(set(..))` has no defined order. The model returns the missed topics in order of first occurrence, and only the elements and their distinctness are promised.
- Stripe checkout, the payment status poll and the webhook, including the yearly-365 / otherwise-30-day subscription rule, are foreign calls outside this model.
- Certificate PDF and QR rendering, seed data, notes and the frontend are not part of this model.
- Lab-instance lifecycle and quotas: backend/server.py contains no code for them, so there is nothing here to model.
- Lab and project ids are not checked against any catalogue, and an assessment id must exist in the assessment catalogue but is not checked to belong to the certification. backend/server.py does the same, so the model accepts any lab or project id and any existing assessment id.
- Dashboard.GetDashboard: the documents and the certification catalogue are parameters (the result of the two queries). The second query's 100-document limit is not modelled separately: its `cert_id` filter lists the ids of at most 100 documents, and each `cert_id` names one catalogue entry, so at most 100 entries can match and the limit never drops one.
- The certification catalogue is the constant field `certifications`. In backend/server.py the catalogue is filled by the seed route (`insert_many` at line 843, run only while the collection is empty, lines 719-721), and that insertion recomputes no readiness; the collection can also be changed outside this file. The invariant "readiness equals the calculator's value whenever the certification exists" therefore holds only for a fixed catalogue: a document created before its certification was inserted keeps its stale readiness of 0 until its next completion or submission, and a catalogue edited outside backend/server.py leaves stored readiness stale.
