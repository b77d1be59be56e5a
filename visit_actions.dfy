/**
 * The visit server actions: creating a visit, reading it with its latest
 * transcript and note, and the status update with its timestamp rule.
 */
module VisitActions {
  import opened Wrappers
  import opened JsText
  import opened Schemas
  import opened Database

  /** The filter `.eq("id", patientId).eq("owner_id", ownerId)`. */
  function PatientOf(patientId: Id, ownerId: Id): Patient -> bool {
    (p: Patient) => p.id == patientId && p.ownerId == ownerId
  }

  /** The patient with this id when it belongs to this owner. */
  function OwnedPatient(patients: seq<Patient>, patientId: Id, ownerId: Id): (r: Option<Patient>)
    ensures r.Some? ==> r.value in patients && r.value.id == patientId && r.value.ownerId == ownerId
  {
    Single(patients, PatientOf(patientId, ownerId))
  }

  /** No two patients share an id (the primary key). */
  predicate PatientIdsUnique(patients: seq<Patient>) {
    forall i, j :: 0 <= i < j < |patients| ==> patients[i].id != patients[j].id
  }

  /** With unique ids, a patient of this owner is found by its id. */
  lemma OwnedPatientFound(patients: seq<Patient>, p: Patient, ownerId: Id)
    requires PatientIdsUnique(patients)
    requires p in patients && p.ownerId == ownerId
    ensures OwnedPatient(patients, p.id, ownerId) == Some(p)
  {
    SingleFound(patients, PatientOf(p.id, ownerId), p);
  }

  /**
   * `createVisit`: the form is validated before anything else; the patient
   * must belong to the caller; the new visit always starts as a draft,
   * whatever status the form names.
   */
  method CreateVisit(db: Store, userId: Option<string>, form: VisitInput, insertFails: bool)
    returns (r: Result<Visit, ActionError>)
    requires db.Valid()
    modifies db
    ensures db.Valid()
    ensures ParseVisit(form).Failure? ==> r == Failure(InvalidInput(ParseVisit(form).error)) && unchanged(db)
    ensures ParseVisit(form).Success? && CurrentProfileId(old(db.profiles), userId).Failure? ==>
      r == Failure(CurrentProfileId(old(db.profiles), userId).error) && unchanged(db)
    ensures ParseVisit(form).Success? && CurrentProfileId(old(db.profiles), userId).Success? &&
            OwnedPatient(old(db.patients), form.patientId, CurrentProfileId(old(db.profiles), userId).value).None? ==>
      r == Failure(PatientNotFound) && unchanged(db)
    ensures ParseVisit(form).Success? && CurrentProfileId(old(db.profiles), userId).Success? &&
            OwnedPatient(old(db.patients), form.patientId, CurrentProfileId(old(db.profiles), userId).value).Some? ==>
      if insertFails then r == Failure(WriteFailed) && unchanged(db)
      else
        && r.Success?
        && r.value.patientId == form.patientId
        && r.value.providerId == CurrentProfileId(old(db.profiles), userId).value
        && r.value.status == Draft
        && r.value.languagePref == ParseVisit(form).value.languagePref
        && r.value.startedAt.None? && r.value.endedAt.None?
        && db.visits == old(db.visits) + [r.value]
        && db.profiles == old(db.profiles) && db.patients == old(db.patients)
        && db.transcripts == old(db.transcripts) && db.notes == old(db.notes) && db.metrics == old(db.metrics)
    ensures r.Success? ==> r.value.status == Draft
  {
    var validation := ParseVisit(form);
    if validation.Failure? {
      return Failure(InvalidInput(validation.error));
    }
    var profileId := CurrentProfileId(db.profiles, userId);
    if profileId.Failure? {
      return Failure(profileId.error);
    }
    var patient := OwnedPatient(db.patients, validation.value.patientId, profileId.value);
    if patient.None? {
      return Failure(PatientNotFound);
    }
    if insertFails {
      return Failure(WriteFailed);
    }
    var visit := db.InsertVisit(validation.value.patientId, profileId.value, Draft, validation.value.languagePref);
    return Success(visit);
  }

  /** A visit with its latest transcript and highest-version note, when it has them. */
  datatype VisitDetails = VisitDetails(visit: Visit, transcript: Option<Transcript>, note: Option<Note>)

  /**
   * `getVisit`: the caller's own visit, paired with the transcript created
   * last and the note with the highest version.
   */
  method GetVisit(db: Store, userId: Option<string>, visitId: Id) returns (r: Result<VisitDetails, ActionError>)
    ensures CurrentProfileId(db.profiles, userId).Failure? ==> r == Failure(CurrentProfileId(db.profiles, userId).error)
    ensures CurrentProfileId(db.profiles, userId).Success? ==>
      (r.Success? <==> AdmittedVisit(db.profiles, db.visits, userId, visitId).Some?)
    ensures CurrentProfileId(db.profiles, userId).Success? && r.Failure? ==> r.error == VisitNotFound
    ensures r.Success? ==>
      && r.value.visit in db.visits && r.value.visit.id == visitId
      && r.value.visit.providerId == CurrentProfileId(db.profiles, userId).value
    ensures r.Success? ==>
      && (r.value.transcript.None? <==> forall t :: t in db.transcripts ==> t.visitId != visitId)
      && (r.value.transcript.Some? ==>
            && r.value.transcript.value in db.transcripts && r.value.transcript.value.visitId == visitId
            && forall t :: t in db.transcripts && t.visitId == visitId ==> t.createdAt <= r.value.transcript.value.createdAt)
    ensures r.Success? ==>
      && (r.value.note.None? <==> forall n :: n in db.notes ==> n.visitId != visitId)
      && (r.value.note.Some? ==>
            && r.value.note.value in db.notes && r.value.note.value.visitId == visitId
            && forall n :: n in db.notes && n.visitId == visitId ==> n.version <= r.value.note.value.version)
  {
    var profileId := CurrentProfileId(db.profiles, userId);
    if profileId.Failure? {
      return Failure(profileId.error);
    }
    var visit := OwnedVisit(db.visits, visitId, profileId.value);
    if visit.None? {
      return Failure(VisitNotFound);
    }
    var transcript := LatestTranscript(db.transcripts, visitId);
    var note := HighestVersion(db.notes, visitId);
    return Success(VisitDetails(visit.value, transcript, note));
  }

  /**
   * The update `updateVisitStatus` sends. started_at would be set for
   * recording when the stored status is falsy, but a stored status is never
   * empty; ended_at is set when moving to completed from any other status.
   */
  function StatusUpdate(existing: Visit, status: VisitStatus, now: string): (p: VisitPatch)
    ensures p.status == status
    ensures p.startedAt.None?
    ensures p.endedAt.Some? <==> status == Completed && existing.status != Completed
    ensures p.endedAt.Some? ==> p.endedAt.value == now
  {
    StatusNamesAreTruthy(existing.status);
    if status == Recording && !Truthy(StatusName(existing.status)) then VisitPatch(status, Some(now), None)
    else if status == Completed && existing.status != Completed then VisitPatch(status, None, Some(now))
    else VisitPatch(status, None, None)
  }

  /** The stored status always reads as a non-empty name. */
  lemma StatusNamesAreTruthy(s: VisitStatus)
    ensures Truthy(StatusName(s))
  {
  }

  /**
   * `updateVisitStatus`: the status is checked against the five names before
   * the store is touched; any valid status may replace any other; started_at
   * never changes, and ended_at changes only on a move to completed from
   * another status, so repeating completed keeps the first ended_at.
   */
  method UpdateVisitStatus(db: Store, userId: Option<string>, visitId: Id, status: string, updateFails: bool, now: string)
    returns (r: Result<Visit, ActionError>)
    requires db.Valid()
    modifies db
    ensures db.Valid()
    ensures ParseVisitStatus(status).None? ==> r == Failure(InvalidStatus) && unchanged(db)
    ensures ParseVisitStatus(status).Some? && CurrentProfileId(old(db.profiles), userId).Failure? ==>
      r == Failure(CurrentProfileId(old(db.profiles), userId).error) && unchanged(db)
    ensures ParseVisitStatus(status).Some? && CurrentProfileId(old(db.profiles), userId).Success? &&
            AdmittedVisit(old(db.profiles), old(db.visits), userId, visitId).None? ==>
      r == Failure(VisitNotFound) && unchanged(db)
    ensures ParseVisitStatus(status).Some? && AdmittedVisit(old(db.profiles), old(db.visits), userId, visitId).Some? ==>
      var existing := AdmittedVisit(old(db.profiles), old(db.visits), userId, visitId).value;
      var patch := StatusUpdate(existing, ParseVisitStatus(status).value, now);
      if updateFails then r == Failure(WriteFailed) && unchanged(db)
      else
        && r == Success(PatchVisit(existing, patch))
        && db.visits == PatchVisits(old(db.visits), visitId, patch)
        && db.profiles == old(db.profiles) && db.patients == old(db.patients)
        && db.transcripts == old(db.transcripts) && db.notes == old(db.notes) && db.metrics == old(db.metrics)
    ensures |db.visits| == |old(db.visits)|
    ensures forall i :: 0 <= i < |db.visits| ==> db.visits[i].startedAt == old(db.visits)[i].startedAt
    ensures forall i :: 0 <= i < |db.visits| && old(db.visits)[i].status == Completed ==>
      db.visits[i].endedAt == old(db.visits)[i].endedAt
  {
    var parsed := ParseVisitStatus(status);
    if parsed.None? {
      return Failure(InvalidStatus);
    }
    var profileId := CurrentProfileId(db.profiles, userId);
    if profileId.Failure? {
      return Failure(profileId.error);
    }
    var existing := OwnedVisit(db.visits, visitId, profileId.value);
    if existing.None? {
      return Failure(VisitNotFound);
    }
    var patch := StatusUpdate(existing.value, parsed.value, now);
    if updateFails {
      return Failure(WriteFailed);
    }
    ghost var before := db.visits;
    db.UpdateVisits(visitId, patch);
    forall i | 0 <= i < |before| && before[i].id == visitId
      ensures before[i].status == existing.value.status
    {
      assert before[i] in before;
    }
    return Success(PatchVisit(existing.value, patch));
  }
}
