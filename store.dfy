/** The learner-facing handlers over the document store: the `user_progress`,
    `user_bookmarks` and `user_certificates` collections are fields of one object, updated in
    place; the certification and assessment catalogues are read-only. */
module LearningStore {
  import opened Common
  import opened Readiness
  import opened Scoring
  import opened ProgressModel

  /** A progress document is identified by (user, certification). */
  datatype ProgressKey = ProgressKey(userId: string, certId: string)

  /** A bookmark document (its `created_at` timestamp is not modelled). */
  datatype Bookmark = Bookmark(userId: string, labId: string)

  /** An issued certificate (its `issued_at` timestamp is not modelled). */
  datatype Certificate = Certificate(
    certificateId: string,
    userId: string,
    userName: string,
    userEmail: string,
    certId: string,
    certName: string,
    certCode: string,
    vendor: string,
    readiness: int,
    labsCompleted: nat,
    assessmentsPassed: nat,
    projectsCompleted: nat,
    shareUrl: string)

  /** Readiness a learner needs before a certificate is issued. */
  const CertificateThreshold := 80

  /** Issued certificate numbers are this prefix followed by a random token. */
  const CertificatePrefix := "ST365-"

  class Store {
    const certifications: map<string, Certification>
    const assessments: map<string, Assessment>
    var progress: map<ProgressKey, Progress>
    var bookmarks: seq<Bookmark>
    var certificates: map<ProgressKey, Certificate>

    /** What every stored progress document satisfies: its lists hold no duplicates, at most
        one submission per assessment is kept, and its readiness is the calculator's value
        whenever its certification exists. */
    ghost predicate Consistent(certId: string, p: Progress) {
      && WellFormed(p)
      && (certId in certifications ==> p.readiness == ReadinessOf(p, certifications[certId]))
    }

    /** Every document in `docs` is consistent. */
    ghost predicate AllConsistent(docs: map<ProgressKey, Progress>) {
      forall k :: k in docs ==> Consistent(k.certId, docs[k])
    }

    /** Writing a consistent document keeps the collection consistent. */
    lemma WriteKeepsConsistent(docs: map<ProgressKey, Progress>, key: ProgressKey, p: Progress)
      requires AllConsistent(docs) && Consistent(key.certId, p)
      ensures AllConsistent(docs[key := p])
    {
    }

    /** Every issued certificate belongs to its (user, certification) key and records
        readiness of at least the threshold. */
    ghost predicate AllIssuedFairly(issued: map<ProgressKey, Certificate>) {
      forall k :: k in issued ==>
        && issued[k].userId == k.userId
        && issued[k].certId == k.certId
        && issued[k].readiness >= CertificateThreshold
    }

    ghost predicate Valid()
      reads this
    {
      && AllConsistent(progress)
      && NoDuplicates(bookmarks)
      && AllIssuedFairly(certificates)
    }

    constructor (certifications: map<string, Certification>, assessments: map<string, Assessment>)
      ensures Valid()
      ensures this.certifications == certifications && this.assessments == assessments
      ensures progress == map[] && bookmarks == [] && certificates == map[]
    {
      this.certifications := certifications;
      this.assessments := assessments;
      progress := map[];
      bookmarks := [];
      certificates := map[];
    }

    /** The stored document for `key`, or the one a handler would create. */
    function StoredOrEmpty(docs: map<ProgressKey, Progress>, key: ProgressKey): Progress {
      if key in docs then docs[key] else EmptyProgress
    }

    /** A document after `recalculate_readiness`, which changes nothing when the
        certification is missing. */
    function Recalculated(certId: string, p: Progress): (r: Progress)
      ensures r.labsCompleted == p.labsCompleted && r.assessmentsCompleted == p.assessmentsCompleted
      ensures r.projectsCompleted == p.projectsCompleted
      ensures certId in certifications ==> r.readiness == ReadinessOf(r, certifications[certId])
      ensures certId !in certifications ==> r == p
    {
      if certId in certifications then p.(readiness := ReadinessOf(p, certifications[certId])) else p
    }

    /** `recalculate_readiness`: a no-op without a document or a certification; otherwise
        it rewrites only the document's readiness. */
    method RecalculateReadiness(key: ProgressKey)
      modifies this`progress
      ensures key !in old(progress) ==> progress == old(progress)
      ensures key in old(progress) ==> progress == old(progress)[key := Recalculated(key.certId, old(progress)[key])]
    {
      if key !in progress {
        return;
      }
      if key.certId !in certifications {
        return;
      }
      var p := progress[key];
      var cert := certifications[key.certId];
      progress := progress[key := p.(readiness := ReadinessOf(p, cert))];
    }

    /** Lazily inserts the empty document for `key`. */
    method EnsureProgress(key: ProgressKey)
      modifies this`progress
      ensures key in progress
      ensures progress == old(progress)[key := StoredOrEmpty(old(progress), key)]
    {
      if key !in progress {
        progress := progress[key := EmptyProgress];
      }
    }

    /** A recalculated document is consistent again once its lists are. */
    lemma RecalculatedConsistent(certId: string, p: Progress)
      requires WellFormed(p)
      ensures Consistent(certId, Recalculated(certId, p))
    {
    }

    /** `POST /labs/complete`: records the lab once and recomputes readiness. The lab id is
        not checked against the catalogue. */
    method CompleteLab(userId: string, certId: string, labId: string) returns (updated: Progress)
      requires Valid()
      modifies this`progress
      ensures Valid()
      ensures var key := ProgressKey(userId, certId);
              && progress == old(progress)[key := Recalculated(certId, WithLab(StoredOrEmpty(old(progress), key), labId))]
              && updated == progress[key]
              && labId in updated.labsCompleted
              && (key in old(progress) ==> old(progress)[key].readiness <= updated.readiness)
    {
      var key := ProgressKey(userId, certId);
      ghost var before := StoredOrEmpty(progress, key);
      WriteLab(key, labId);
      updated := progress[key];
      LabConsistent(certId, before, labId);
      WriteKeepsConsistent(old(progress), key, progress[key]);
    }

    /** `POST /projects/complete`: records the project once and recomputes readiness. The
        project id is not checked against the catalogue. */
    method CompleteProject(userId: string, certId: string, projectId: string) returns (updated: Progress)
      requires Valid()
      modifies this`progress
      ensures Valid()
      ensures var key := ProgressKey(userId, certId);
              && progress == old(progress)[key := Recalculated(certId, WithProject(StoredOrEmpty(old(progress), key), projectId))]
              && updated == progress[key]
              && projectId in updated.projectsCompleted
              && (key in old(progress) ==> old(progress)[key].readiness <= updated.readiness)
    {
      var key := ProgressKey(userId, certId);
      ghost var before := StoredOrEmpty(progress, key);
      WriteProject(key, projectId);
      updated := progress[key];
      ProjectConsistent(certId, before, projectId);
      WriteKeepsConsistent(old(progress), key, progress[key]);
    }

    /** The writes of `POST /labs/complete`: lazy creation, the guarded `$push`, then the
        recomputation. */
    method WriteLab(key: ProgressKey, labId: string)
      modifies this`progress
      ensures progress == old(progress)[key := Recalculated(key.certId, WithLab(StoredOrEmpty(old(progress), key), labId))]
    {
      ghost var before := StoredOrEmpty(progress, key);
      EnsureProgress(key);
      assert progress == old(progress)[key := before];
      PushLab(key, labId);
      assert progress == old(progress)[key := WithLab(before, labId)];
      RecalculateReadiness(key);
    }

    /** The writes of `POST /projects/complete`: lazy creation, the guarded `$push`, then the
        recomputation. */
    method WriteProject(key: ProgressKey, projectId: string)
      modifies this`progress
      ensures progress == old(progress)[key := Recalculated(key.certId, WithProject(StoredOrEmpty(old(progress), key), projectId))]
    {
      ghost var before := StoredOrEmpty(progress, key);
      EnsureProgress(key);
      assert progress == old(progress)[key := before];
      PushProject(key, projectId);
      assert progress == old(progress)[key := WithProject(before, projectId)];
      RecalculateReadiness(key);
    }

    /** The writes of a submission: lazy creation, the `$pull` and `$push` of the result, then
        the recomputation. */
    method WriteResult(key: ProgressKey, result: AssessmentResult)
      modifies this`progress
      ensures progress == old(progress)[key := Recalculated(key.certId, WithResult(StoredOrEmpty(old(progress), key), result))]
    {
      ghost var before := StoredOrEmpty(progress, key);
      EnsureProgress(key);
      assert progress == old(progress)[key := before];
      PullAndPushResult(key, result);
      assert progress == old(progress)[key := WithResult(before, result)];
      RecalculateReadiness(key);
    }

    /** The guarded `$push` of a lab id onto an existing document. */
    method PushLab(key: ProgressKey, labId: string)
      requires key in progress
      modifies this`progress
      ensures progress == old(progress)[key := WithLab(old(progress)[key], labId)]
    {
      var p := progress[key];
      if labId !in p.labsCompleted {
        progress := progress[key := p.(labsCompleted := p.labsCompleted + [labId])];
      }
    }

    /** The guarded `$push` of a project id onto an existing document. */
    method PushProject(key: ProgressKey, projectId: string)
      requires key in progress
      modifies this`progress
      ensures progress == old(progress)[key := WithProject(old(progress)[key], projectId)]
    {
      var p := progress[key];
      if projectId !in p.projectsCompleted {
        progress := progress[key := p.(projectsCompleted := p.projectsCompleted + [projectId])];
      }
    }

    /** Completing a lab keeps a document consistent and never lowers a consistent
        document's readiness. */
    lemma LabConsistent(certId: string, p: Progress, labId: string)
      requires WellFormed(p)
      ensures Consistent(certId, Recalculated(certId, WithLab(p, labId)))
      ensures Consistent(certId, p) ==> p.readiness <= Recalculated(certId, WithLab(p, labId)).readiness
    {
      RecalculatedConsistent(certId, WithLab(p, labId));
      if certId in certifications {
        CompletionNeverLowersReadiness(p, labId, certifications[certId]);
      }
    }

    /** Completing a project keeps a document consistent and never lowers a consistent
        document's readiness. */
    lemma ProjectConsistent(certId: string, p: Progress, projectId: string)
      requires WellFormed(p)
      ensures Consistent(certId, Recalculated(certId, WithProject(p, projectId)))
      ensures Consistent(certId, p) ==> p.readiness <= Recalculated(certId, WithProject(p, projectId)).readiness
    {
      RecalculatedConsistent(certId, WithProject(p, projectId));
      if certId in certifications {
        CompletionNeverLowersReadiness(p, projectId, certifications[certId]);
      }
    }

    /** `POST /assessments/submit`: grades the answers, replaces any earlier result for the
        assessment by the new one, and recomputes readiness. An unknown assessment fails
        before anything is written. The assessment is not checked to belong to `certId`. */
    method SubmitAssessment(userId: string, certId: string, assessmentId: string, answers: map<string, string>)
      returns (r: Result<Grading, ApiError>)
      requires Valid()
      modifies this`progress
      ensures Valid()
      ensures assessmentId !in assessments ==> r == Failure(AssessmentNotFound) && progress == old(progress)
      ensures assessmentId in assessments ==>
        var key, a := ProgressKey(userId, certId), assessments[assessmentId];
        && r.Success?
        && r.value.correct == CorrectCount(a.questions, answers)
        && r.value.total == |a.questions|
        && r.value.score == Percent(r.value.correct, r.value.total)
        && (r.value.passed <==> r.value.score >= a.passThreshold)
        && r.value.passThreshold == a.passThreshold
        && r.value.weakAreas == Dedup(MissedTopics(a.questions, answers))
        && var result := AssessmentResult(assessmentId, r.value.score, r.value.passed, r.value.weakAreas, answers);
           && progress == old(progress)[key := Recalculated(certId, WithResult(StoredOrEmpty(old(progress), key), result))]
           && EntriesFor(progress[key].assessmentsCompleted, assessmentId) == [result]
    {
      var found := if assessmentId in assessments then Some(assessments[assessmentId]) else None;
      r := Grade(found, answers);
      if r.Failure? {
        return;
      }
      var g := r.value;
      var result := AssessmentResult(assessmentId, g.score, g.passed, g.weakAreas, answers);
      var key := ProgressKey(userId, certId);
      ghost var written := Recalculated(certId, WithResult(StoredOrEmpty(progress, key), result));
      RecordResult(key, result);
      ResultIsSole(certId, StoredOrEmpty(old(progress), key), result);
      assert progress[key] == written;
    }

    /** The progress half of a submission: lazily creates the document, replaces the stored
        result for the assessment by `result`, and recomputes readiness. */
    method RecordResult(key: ProgressKey, result: AssessmentResult)
      requires Valid()
      modifies this`progress
      ensures Valid()
      ensures progress == old(progress)[key := Recalculated(key.certId, WithResult(StoredOrEmpty(old(progress), key), result))]
    {
      WriteResult(key, result);
      ResultWriteConsistent(old(progress), key, result);
    }

    /** Recording a submission into a consistent collection keeps it consistent. */
    lemma ResultWriteConsistent(docs: map<ProgressKey, Progress>, key: ProgressKey, result: AssessmentResult)
      requires AllConsistent(docs)
      ensures AllConsistent(docs[key := Recalculated(key.certId, WithResult(StoredOrEmpty(docs, key), result))])
    {
      var before := StoredOrEmpty(docs, key);
      ResultConsistent(key.certId, before, result);
      WriteKeepsConsistent(docs, key, Recalculated(key.certId, WithResult(before, result)));
    }

    /** A recorded and recomputed document stays consistent. */
    lemma ResultConsistent(certId: string, p: Progress, result: AssessmentResult)
      requires WellFormed(p)
      ensures Consistent(certId, Recalculated(certId, WithResult(p, result)))
    {
      ReplaceKeepsDistinct(p.assessmentsCompleted, result);
      RecalculatedConsistent(certId, WithResult(p, result));
    }

    /** After a submission is recorded and readiness recomputed, the new result is its
        assessment's only stored entry. */
    lemma ResultIsSole(certId: string, p: Progress, result: AssessmentResult)
      ensures EntriesFor(Recalculated(certId, WithResult(p, result)).assessmentsCompleted, result.assessmentId) == [result]
    {
      ReplaceAssessmentEntries(p.assessmentsCompleted, result, result.assessmentId);
    }

    /** The `$pull` of every stored result for the assessment, then the `$push` of the new one. */
    method PullAndPushResult(key: ProgressKey, result: AssessmentResult)
      requires key in progress
      modifies this`progress
      ensures progress == old(progress)[key := WithResult(old(progress)[key], result)]
    {
      var p := progress[key];
      progress := progress[key := p.(assessmentsCompleted := WithoutAssessment(p.assessmentsCompleted, result.assessmentId))];
      p := progress[key];
      progress := progress[key := p.(assessmentsCompleted := p.assessmentsCompleted + [result])];
    }

    /** `POST /bookmarks`: `bookmarked` inserts the (user, lab) bookmark unless it exists;
        otherwise deletes it if it exists. Other bookmarks are untouched. */
    method ToggleBookmark(userId: string, labId: string, bookmarked: bool) returns (state: bool)
      requires Valid()
      modifies this`bookmarks
      ensures Valid()
      ensures state == bookmarked
      ensures var b := Bookmark(userId, labId);
              && (bookmarked ==> bookmarks == AppendIfAbsent(old(bookmarks), b) && multiset(bookmarks)[b] == 1)
              && (!bookmarked ==> bookmarks == RemoveFirst(old(bookmarks), b) && b !in bookmarks)
              && (forall other :: other != b ==> multiset(bookmarks)[other] == multiset(old(bookmarks))[other])
    {
      var b := Bookmark(userId, labId);
      var existing := b in bookmarks;
      if bookmarked {
        if !existing {
          bookmarks := bookmarks + [b];
        }
        OccursOnce(bookmarks, b);
        state := true;
      } else {
        if existing {
          bookmarks := RemoveFirst(bookmarks, b);
        }
        RemoveFirstFromDistinct(old(bookmarks), b);
        state := false;
      }
    }

    /** `POST /certificates/generate`: needs a progress document with readiness of at least
        80, then the certification; returns the existing certificate when there is one, and
        otherwise issues one whose counts are copied from the progress document. The random
        part of the certificate number is the parameter `token`. */
    method GenerateCertificate(userId: string, userName: string, userEmail: string, certId: string, token: string)
      returns (r: Result<Certificate, ApiError>)
      requires Valid()
      modifies this`certificates
      ensures Valid()
      ensures var key := ProgressKey(userId, certId);
              var eligible := key in progress && progress[key].readiness >= CertificateThreshold;
              && (!eligible ==> r == Failure(ReadinessTooLow) && certificates == old(certificates))
              && (eligible && certId !in certifications ==>
                    r == Failure(CertificationNotFound) && certificates == old(certificates))
              && (eligible && certId in certifications && key in old(certificates) ==>
                    r == Success(old(certificates)[key]) && certificates == old(certificates))
              && (eligible && certId in certifications && key !in old(certificates) ==>
                    var p, cert := progress[key], certifications[certId];
                    && r.Success?
                    && certificates == old(certificates)[key := r.value]
                    && r.value.certificateId == CertificatePrefix + token
                    && r.value.shareUrl == "/certificate/" + r.value.certificateId
                    && r.value.userId == userId && r.value.certId == certId
                    && r.value.userName == userName && r.value.userEmail == userEmail
                    && r.value.certName == cert.name && r.value.certCode == cert.code && r.value.vendor == cert.vendor
                    && r.value.readiness == p.readiness
                    && r.value.labsCompleted == |p.labsCompleted|
                    && r.value.assessmentsPassed == PassedCount(p.assessmentsCompleted)
                    && r.value.projectsCompleted == |p.projectsCompleted|)
              && (r.Success? ==> key in certificates && certificates[key] == r.value)
    {
      var key := ProgressKey(userId, certId);
      if key !in progress || progress[key].readiness < CertificateThreshold {
        return Failure(ReadinessTooLow);
      }
      if certId !in certifications {
        return Failure(CertificationNotFound);
      }
      if key in certificates {
        return Success(certificates[key]);
      }
      var p, cert := progress[key], certifications[certId];
      var certificateId := CertificatePrefix + token;
      var issued := Certificate(
        certificateId, userId, userName, userEmail, certId, cert.name, cert.code, cert.vendor,
        p.readiness, |p.labsCompleted|, PassedCount(p.assessmentsCompleted), |p.projectsCompleted|,
        "/certificate/" + certificateId);
      certificates := certificates[key := issued];
      r := Success(issued);
    }
  }
}
