/**
 * The transcription server actions used by the live-recording screen:
 * saving the final transcript of a streaming session, and the status
 * changes sent while recording.
 */
module TranscriptionActions {
  import opened Wrappers
  import opened JsText
  import opened Schemas
  import opened TranscriptUtils
  import opened AzureOpenAI
  import opened Database
  import VisitActions

  /** What the speech-to-text session reports with its final text. */
  datatype StreamMetadata = StreamMetadata(language: Option<string>, confidence: Option<real>, durationSeconds: Option<real>)

  /** A caller with a non-empty user id (`if (!userId)` lets the rest through). */
  predicate SignedIn(userId: Option<string>) {
    userId.Some? && Truthy(userId.value)
  }

  /** JavaScript `Math.round`: the nearest integer, with halves going up. */
  function Round(x: real): (n: int)
    ensures x - 0.5 < n as real <= x + 0.5
  {
    (x + 0.5).Floor
  }

  /** Rounding is the identity on whole numbers and sends every half upward, negative ones included. */
  lemma RoundFacts(k: int)
    ensures Round(k as real) == k
    ensures Round(k as real + 0.5) == k + 1
    ensures Round(k as real - 0.5) == k
  {
  }

  /** A duration that is present and not zero (NaN is not modelled). */
  predicate DurationTruthy(d: Option<real>) {
    d.Some? && d.value != 0.0
  }

  const DEFAULT_DEEPGRAM_MODEL: string := "nova-3"

  /** The model column of a speech-to-text usage row: `deepgram:` and the configured model. */
  function SttModel(deepgramModel: Option<string>): (m: string)
    ensures |m| > 9 && m[..9] == "deepgram:"
    ensures IsSet(deepgramModel) ==> m[9..] == deepgramModel.value
    ensures !IsSet(deepgramModel) ==> m[9..] == DEFAULT_DEEPGRAM_MODEL
  {
    "deepgram:" + OrDefault(deepgramModel, DEFAULT_DEEPGRAM_MODEL)
  }

  /** The usage row of a streaming session: only the speech-to-text columns are filled. */
  function SttMetrics(visitId: Id, durationSeconds: real, deepgramModel: Option<string>): (m: MetricsRequest)
    ensures m.visitId == visitId
    ensures m.sttSeconds.Some? && durationSeconds - 0.5 < m.sttSeconds.value as real <= durationSeconds + 0.5
    ensures m.sttModel == Some(SttModel(deepgramModel))
    ensures m.llmTokensIn.None? && m.llmTokensOut.None? && m.llmModel.None?
  {
    MetricsRequest(visitId, Some(Round(durationSeconds)), Some(SttModel(deepgramModel)), None, None, None)
  }

  /**
   * After the length check on the cleaned text has passed, the transcript
   * schema can only refuse the confidence: the two checks use the same band
   * and a cleaned text is its own trim.
   */
  lemma SchemaAfterLengthCheck(text: string, metadata: StreamMetadata)
    requires ValidateTranscriptLength(Clean(text)).valid
    ensures TranscriptInputValid(TranscriptInput(Clean(text), metadata.language, metadata.confidence)) <==>
      (metadata.confidence.Some? ==> 0.0 <= metadata.confidence.value <= 1.0)
  {
    ValidateCleanedMeasuresLength(text);
  }

  /**
   * `saveTranscriptFromStream` after the text has been cleaned and its
   * length accepted: profile and visit ownership, then the transcript
   * schema; only then are the text, the optional usage row and status
   * completed written. The usage row and the status update are not checked
   * for errors, so they always take effect here.
   */
  method StoreStreamTranscript(
    db: Store, userId: Option<string>, visitId: Id, cleaned: string, metadata: StreamMetadata,
    deepgramModel: Option<string>, insertFails: bool)
    returns (r: Result<Transcript, ActionError>)
    requires db.Valid()
    requires SignedIn(userId)
    modifies db
    ensures db.Valid()
    ensures CurrentProfileId(old(db.profiles), userId).Failure? ==> r == Failure(ProfileNotFound) && unchanged(db)
    ensures CurrentProfileId(old(db.profiles), userId).Success? &&
            AdmittedVisit(old(db.profiles), old(db.visits), userId, visitId).None? ==>
      r == Failure(VisitNotFound) && unchanged(db)
    ensures AdmittedVisit(old(db.profiles), old(db.visits), userId, visitId).Some? &&
            !TranscriptInputValid(TranscriptInput(cleaned, metadata.language, metadata.confidence)) ==>
      r == Failure(InvalidInput(ParseTranscript(TranscriptInput(cleaned, metadata.language, metadata.confidence)).error))
      && unchanged(db)
    ensures AdmittedVisit(old(db.profiles), old(db.visits), userId, visitId).Some? &&
            TranscriptInputValid(TranscriptInput(cleaned, metadata.language, metadata.confidence)) ==>
      if insertFails then r == Failure(WriteFailed) && unchanged(db)
      else
        && r == Success(Transcript(RowId(old(db.clock)), visitId, cleaned, metadata.language, metadata.confidence, old(db.clock)))
        && db.transcripts == old(db.transcripts) + [r.value]
        && db.metrics == old(db.metrics) +
             (if DurationTruthy(metadata.durationSeconds)
              then [SttMetrics(visitId, metadata.durationSeconds.value, deepgramModel)] else [])
        && db.visits == PatchVisits(old(db.visits), visitId, VisitPatch(Completed, None, None))
        && db.profiles == old(db.profiles) && db.patients == old(db.patients) && db.notes == old(db.notes)
    ensures r.Success? ==> LatestTranscript(db.transcripts, visitId) == Some(r.value)
  {
    var profileId := CurrentProfileId(db.profiles, userId);
    if profileId.Failure? {
      return Failure(ProfileNotFound);
    }
    var visit := OwnedVisit(db.visits, visitId, profileId.value);
    if visit.None? {
      return Failure(VisitNotFound);
    }
    var parsed := ParseTranscript(TranscriptInput(cleaned, metadata.language, metadata.confidence));
    if parsed.Failure? {
      return Failure(InvalidInput(parsed.error));
    }
    if insertFails {
      return Failure(WriteFailed);
    }
    var transcript := db.InsertTranscript(visitId, cleaned, metadata.language, metadata.confidence);
    if DurationTruthy(metadata.durationSeconds) {
      db.InsertMetrics(SttMetrics(visitId, metadata.durationSeconds.value, deepgramModel));
    }
    db.UpdateVisits(visitId, VisitPatch(Completed, None, None));
    return Success(transcript);
  }

  /**
   * `saveTranscriptFromStream`: sign-in, then the length of the cleaned
   * text, before the store is touched; then it stores the cleaned text,
   * which is the transcript created last for the visit.
   */
  method SaveTranscriptFromStream(
    db: Store, userId: Option<string>, visitId: Id, text: string, metadata: StreamMetadata,
    deepgramModel: Option<string>, insertFails: bool)
    returns (r: Result<Transcript, ActionError>)
    requires db.Valid()
    modifies db
    ensures db.Valid()
    ensures !SignedIn(userId) ==> r == Failure(NotAuthenticated) && unchanged(db)
    ensures SignedIn(userId) && !ValidateTranscriptLength(Clean(text)).valid ==>
      r == Failure(InvalidTranscript(ValidateTranscriptLength(Clean(text)).error)) && unchanged(db)
    ensures SignedIn(userId) && ValidateTranscriptLength(Clean(text)).valid &&
            AdmittedVisit(old(db.profiles), old(db.visits), userId, visitId).None? ==>
      r.Failure? && unchanged(db)
    ensures SignedIn(userId) && ValidateTranscriptLength(Clean(text)).valid &&
            AdmittedVisit(old(db.profiles), old(db.visits), userId, visitId).Some? ==>
      (r.Success? <==> !insertFails && (metadata.confidence.Some? ==> 0.0 <= metadata.confidence.value <= 1.0))
    ensures r.Success? ==>
      && r.value == Transcript(RowId(old(db.clock)), visitId, Clean(text), metadata.language, metadata.confidence, old(db.clock))
      && db.transcripts == old(db.transcripts) + [r.value]
      && db.metrics == old(db.metrics) +
           (if DurationTruthy(metadata.durationSeconds)
            then [SttMetrics(visitId, metadata.durationSeconds.value, deepgramModel)] else [])
      && db.visits == PatchVisits(old(db.visits), visitId, VisitPatch(Completed, None, None))
      && db.profiles == old(db.profiles) && db.patients == old(db.patients) && db.notes == old(db.notes)
    ensures r.Success? ==> LatestTranscript(db.transcripts, visitId) == Some(r.value)
    ensures r.Success? ==> MIN_TRANSCRIPT_LENGTH <= |r.value.text| <= MAX_TRANSCRIPT_LENGTH
  {
    if !SignedIn(userId) {
      return Failure(NotAuthenticated);
    }
    var cleaned := Clean(text);
    var validation := ValidateTranscriptLength(cleaned);
    if !validation.valid {
      return Failure(InvalidTranscript(validation.error));
    }
    ValidateCleanedMeasuresLength(text);
    SchemaAfterLengthCheck(text, metadata);
    r := StoreStreamTranscript(db, userId, visitId, cleaned, metadata, deepgramModel, insertFails);
  }

  /** The statuses the recording screen may send: every status but draft. */
  type RecordingStatus = s: VisitStatus | s != Draft witness Recording

  /**
   * The update `updateRecordingStatus` sends: started_at when recording
   * begins on a draft, ended_at on every move to completed.
   */
  function RecordingPatch(existing: Visit, status: RecordingStatus, now: string): (p: VisitPatch)
    ensures p.status == status
    ensures p.startedAt.Some? <==> status == Recording && existing.status == Draft
    ensures p.endedAt.Some? <==> status == Completed
    ensures p.startedAt.Some? ==> p.startedAt.value == now
    ensures p.endedAt.Some? ==> p.endedAt.value == now
  {
    if status == Recording && existing.status == Draft then VisitPatch(status, Some(now), None)
    else if status == Completed then VisitPatch(status, None, Some(now))
    else VisitPatch(status, None, None)
  }

  /**
   * The two status updates agree on the status but not on a repeated
   * completion: the visit form keeps the first ended_at, the recording
   * screen overwrites it. Only the recording screen sets started_at, and
   * only on a draft.
   */
  lemma RecordingAndVisitUpdatesDiffer(existing: Visit, status: RecordingStatus, now: string)
    ensures PatchVisit(existing, RecordingPatch(existing, status, now)).status ==
            PatchVisit(existing, VisitActions.StatusUpdate(existing, status, now)).status
    ensures existing.status == Completed && status == Completed ==>
      && PatchVisit(existing, RecordingPatch(existing, status, now)).endedAt == Some(now)
      && PatchVisit(existing, VisitActions.StatusUpdate(existing, status, now)).endedAt == existing.endedAt
    ensures existing.status != Completed ==>
      PatchVisit(existing, RecordingPatch(existing, status, now)).endedAt ==
      PatchVisit(existing, VisitActions.StatusUpdate(existing, status, now)).endedAt
    ensures existing.status == Draft && status == Recording ==>
      && PatchVisit(existing, RecordingPatch(existing, status, now)).startedAt == Some(now)
      && PatchVisit(existing, VisitActions.StatusUpdate(existing, status, now)).startedAt == existing.startedAt
  {
  }

  /**
   * `updateRecordingStatus`: profile and visit ownership, then the status
   * with its timestamps. The status is not checked at run time; its type
   * keeps draft out.
   */
  method UpdateRecordingStatus(
    db: Store, userId: Option<string>, visitId: Id, status: RecordingStatus, updateFails: bool, now: string)
    returns (r: Result<(), ActionError>)
    requires db.Valid()
    modifies db
    ensures db.Valid()
    ensures CurrentProfileId(old(db.profiles), userId).Failure? ==>
      r == Failure(CurrentProfileId(old(db.profiles), userId).error) && unchanged(db)
    ensures CurrentProfileId(old(db.profiles), userId).Success? &&
            AdmittedVisit(old(db.profiles), old(db.visits), userId, visitId).None? ==>
      r == Failure(VisitNotFound) && unchanged(db)
    ensures AdmittedVisit(old(db.profiles), old(db.visits), userId, visitId).Some? ==>
      var existing := AdmittedVisit(old(db.profiles), old(db.visits), userId, visitId).value;
      if updateFails then r == Failure(WriteFailed) && unchanged(db)
      else
        && r.Success?
        && db.visits == PatchVisits(old(db.visits), visitId, RecordingPatch(existing, status, now))
        && db.profiles == old(db.profiles) && db.patients == old(db.patients)
        && db.transcripts == old(db.transcripts) && db.notes == old(db.notes) && db.metrics == old(db.metrics)
    ensures |db.visits| == |old(db.visits)|
    ensures forall i :: 0 <= i < |db.visits| && db.visits[i].startedAt != old(db.visits)[i].startedAt ==>
      old(db.visits)[i].status == Draft && db.visits[i].status == Recording
    ensures forall i :: 0 <= i < |db.visits| && db.visits[i].endedAt != old(db.visits)[i].endedAt ==>
      db.visits[i].status == Completed
    ensures r.Success? ==> forall i :: 0 <= i < |db.visits| && db.visits[i].id == visitId ==> db.visits[i].status == status
  {
    var profileId := CurrentProfileId(db.profiles, userId);
    if profileId.Failure? {
      return Failure(profileId.error);
    }
    var existing := OwnedVisit(db.visits, visitId, profileId.value);
    if existing.None? {
      return Failure(VisitNotFound);
    }
    var patch := RecordingPatch(existing.value, status, now);
    if updateFails {
      return Failure(WriteFailed);
    }
    OwnedVisitIsTheRow(db.visits, visitId, profileId.value);
    db.UpdateVisits(visitId, patch);
    return Success(());
  }
}
