/**
 * The SOAP-note server actions: generation with bounded retry, the
 * orchestration around it (ownership, the idempotent short-circuit by
 * transcript hash, the next note version, the visit status sequence),
 * manual edits, finalisation and regeneration.
 *
 * The language model, the token estimator, JSON serialisation and
 * `parseInt` are parameters; the clock is the timestamp `now`; a write
 * whose error the source checks fails when its fault flag is set.
 */
module SoapActions {
  import opened Wrappers
  import opened JsText
  import opened Schemas
  import opened TranscriptUtils
  import opened Prompts
  import opened AzureOpenAI
  import opened Database

  const MAX_RETRIES: nat := 3
  /** The wait before attempt k + 1 is RETRY_DELAYS[k - 1] milliseconds. */
  const RETRY_DELAYS: seq<nat> := [1000, 2000, 3000]

  datatype Usage = Usage(promptTokens: int, completionTokens: int)

  /**
   * What `generateObject` is asked. Both prompts are fixed by the language
   * and the prompt parameters, so the request holds those; SystemText and
   * UserText give the texts sent.
   */
  datatype LlmRequest = LlmRequest(language: LanguagePref, params: PromptParams, maxTokens: int)

  function SystemText(req: LlmRequest): string {
    GetSoapSystemPrompt(req.language)
  }

  function UserText(req: LlmRequest): string {
    CreateSoapUserPrompt(req.language, req.params)
  }

  /** What one call of `generateObject` does: throw, or return a candidate object and maybe its usage. */
  datatype LlmReply = Threw | Returned(candidate: SoapNote, usage: Option<Usage>)

  /**
   * The code the actions call and this model does not contain. The model's
   * reply may differ from attempt to attempt, so it also receives the attempt number.
   * `estimateRequestTokens(req)` is the token estimate of the text
   * `SystemText(req) + UserText(req)`; `estimateTokenCount` is the same
   * estimate of any other text.
   */
  datatype Collaborators = Collaborators(
    generateObject: (LlmRequest, nat) -> LlmReply,
    estimateRequestTokens: LlmRequest -> int,
    estimateTokenCount: string -> int,
    stringify: SoapNote -> string,
    parseInt: string -> int,
    env: Env)

  datatype Generated = Generated(soap: SoapNote, tokensIn: int, tokensOut: int)

  datatype GenerationError = InvalidLength(error: Option<LengthError>) | Exhausted

  /**
   * The request every attempt sends for the cleaned text. Unlike
   * GetMaxOutputTokens, the token limit parses the default "1024" too.
   */
  function SoapRequest(language: LanguagePref, cleaned: string, detail: Detail, bodyRegion: Option<string>, c: Collaborators)
    : (r: LlmRequest)
    ensures r.language == language && r.params == PromptParams(cleaned, Some(detail), bodyRegion)
    ensures !IsSet(c.env.maxOutputTokens) ==> r.maxTokens == c.parseInt("1024")
    ensures IsSet(c.env.maxOutputTokens) ==> r.maxTokens == c.parseInt(c.env.maxOutputTokens.value)
  {
    LlmRequest(
      language,
      PromptParams(cleaned, Some(detail), bodyRegion),
      c.parseInt(OrDefault(c.env.maxOutputTokens, "1024")))
  }

  /** An attempt succeeds when the call returns and the object passes the SOAP schema. */
  predicate Accepted(reply: LlmReply) {
    reply.Returned? && ParseSoap(reply.candidate).Success?
  }

  /** Reported usage when it is non-zero, the estimate otherwise (`usage?.x || estimate`). */
  function TokensIn(reply: LlmReply, req: LlmRequest, c: Collaborators): (n: int)
    requires reply.Returned?
    ensures reply.usage.Some? && reply.usage.value.promptTokens != 0 ==> n == reply.usage.value.promptTokens
    ensures n == 0 ==> c.estimateRequestTokens(req) == 0
    ensures reply.usage.None? ==> n == c.estimateRequestTokens(req)
    ensures !(reply.usage.Some? && reply.usage.value.promptTokens != 0) ==> n == c.estimateRequestTokens(req)
  {
    if reply.usage.Some? && reply.usage.value.promptTokens != 0 then reply.usage.value.promptTokens
    else c.estimateRequestTokens(req)
  }

  /** Reported completion tokens when non-zero, the estimate of the serialised object otherwise. */
  function TokensOut(reply: LlmReply, c: Collaborators): (n: int)
    requires reply.Returned?
    ensures reply.usage.Some? && reply.usage.value.completionTokens != 0 ==> n == reply.usage.value.completionTokens
    ensures n == 0 ==> c.estimateTokenCount(c.stringify(reply.candidate)) == 0
    ensures reply.usage.None? ==> n == c.estimateTokenCount(c.stringify(reply.candidate))
    ensures !(reply.usage.Some? && reply.usage.value.completionTokens != 0) ==>
      n == c.estimateTokenCount(c.stringify(reply.candidate))
  {
    if reply.usage.Some? && reply.usage.value.completionTokens != 0 then reply.usage.value.completionTokens
    else c.estimateTokenCount(c.stringify(reply.candidate))
  }

  function GeneratedFrom(reply: LlmReply, req: LlmRequest, c: Collaborators): Generated
    requires Accepted(reply)
  {
    Generated(ParseSoap(reply.candidate).value, TokensIn(reply, req, c), TokensOut(reply, c))
  }

  /** Attempt `attempt` and, while attempts remain, the ones after it (the recursion of the source). */
  function Attempt(req: LlmRequest, c: Collaborators, attempt: nat): Result<Generated, GenerationError>
    requires 1 <= attempt <= MAX_RETRIES
    decreases MAX_RETRIES - attempt
  {
    var reply := c.generateObject(req, attempt);
    if Accepted(reply) then Success(GeneratedFrom(reply, req, c))
    else if attempt < MAX_RETRIES then Attempt(req, c, attempt + 1)
    else Failure(Exhausted)
  }

  /** What `generateSoapWithRetry` returns: an invalid length fails at once, otherwise up to three attempts. */
  function Generation(rawText: string, language: LanguagePref, detail: Detail, bodyRegion: Option<string>, c: Collaborators)
    : Result<Generated, GenerationError>
  {
    var cleaned := Clean(rawText);
    var validation := ValidateTranscriptLength(cleaned);
    if !validation.valid then Failure(InvalidLength(validation.error))
    else Attempt(SoapRequest(language, cleaned, detail, bodyRegion, c), c, 1)
  }

  /**
   * The outcome of the attempts from `attempt` on: success carries the first
   * accepted reply's SOAP, which passes the schema; failure means every
   * remaining attempt was rejected.
   */
  lemma {:induction false} AttemptFacts(req: LlmRequest, c: Collaborators, attempt: nat) returns (k: nat)
    requires 1 <= attempt <= MAX_RETRIES
    ensures Attempt(req, c, attempt).Success? ==>
      && attempt <= k <= MAX_RETRIES
      && Accepted(c.generateObject(req, k))
      && Attempt(req, c, attempt).value == GeneratedFrom(c.generateObject(req, k), req, c)
      && SoapValid(Attempt(req, c, attempt).value.soap)
      && (forall j :: attempt <= j < k ==> !Accepted(c.generateObject(req, j)))
    ensures Attempt(req, c, attempt).Failure? <==>
      forall j :: attempt <= j <= MAX_RETRIES ==> !Accepted(c.generateObject(req, j))
    ensures Attempt(req, c, attempt).Failure? ==> Attempt(req, c, attempt).error == Exhausted
    decreases MAX_RETRIES - attempt
  {
    var reply := c.generateObject(req, attempt);
    if Accepted(reply) {
      k := attempt;
    } else if attempt < MAX_RETRIES {
      k := AttemptFacts(req, c, attempt + 1);
    } else {
      k := attempt;
    }
  }

  /** The waits made before attempt `attempts`: one per failed attempt, in order. */
  predicate WaitedBefore(attempts: nat, delays: seq<nat>) {
    1 <= attempts <= MAX_RETRIES && delays == RETRY_DELAYS[..attempts - 1]
  }

  /**
   * The attempts of `generateSoapWithRetry` for one request: at most three
   * calls, waiting 1 s after the first failure and 2 s after the second. The
   * third delay is never used.
   */
  method RetryAttempts(req: LlmRequest, c: Collaborators)
    returns (r: Result<Generated, GenerationError>, ghost attempts: nat, ghost delays: seq<nat>)
    ensures r == Attempt(req, c, 1)
    ensures 1 <= attempts <= MAX_RETRIES
    ensures WaitedBefore(attempts, delays)
    ensures forall k :: 1 <= k < attempts ==> !Accepted(c.generateObject(req, k))
    ensures r.Success? <==> Accepted(c.generateObject(req, attempts))
    ensures r.Success? ==> r.value == GeneratedFrom(c.generateObject(req, attempts), req, c)
    ensures r.Failure? ==> attempts == MAX_RETRIES && r.error == Exhausted
  {
    var attempt := 1;
    delays := [];
    while true
      invariant 1 <= attempt <= MAX_RETRIES
      invariant delays == RETRY_DELAYS[..attempt - 1]
      invariant forall k :: 1 <= k < attempt ==> !Accepted(c.generateObject(req, k))
      invariant Attempt(req, c, attempt) == Attempt(req, c, 1)
      decreases MAX_RETRIES - attempt
    {
      var reply := c.generateObject(req, attempt);
      if Accepted(reply) {
        return Success(GeneratedFrom(reply, req, c)), attempt, delays;
      }
      if attempt >= MAX_RETRIES {
        return Failure(Exhausted), attempt, delays;
      }
      delays := delays + [RETRY_DELAYS[attempt - 1]];
      attempt := attempt + 1;
    }
  }

  /**
   * An invalid length fails at once, without calling the model; otherwise
   * a failure means the attempts ran out, and a generated SOAP always
   * passes the schema.
   */
  lemma GenerationFacts(rawText: string, language: LanguagePref, detail: Detail, bodyRegion: Option<string>, c: Collaborators)
    ensures !ValidateTranscriptLength(Clean(rawText)).valid ==>
      Generation(rawText, language, detail, bodyRegion, c) == Failure(InvalidLength(ValidateTranscriptLength(Clean(rawText)).error))
    ensures ValidateTranscriptLength(Clean(rawText)).valid && Generation(rawText, language, detail, bodyRegion, c).Failure? ==>
      Generation(rawText, language, detail, bodyRegion, c).error == Exhausted
    ensures Generation(rawText, language, detail, bodyRegion, c).Success? ==>
      SoapValid(Generation(rawText, language, detail, bodyRegion, c).value.soap)
    ensures ValidateTranscriptLength(Clean(rawText)).valid ==>
      (Generation(rawText, language, detail, bodyRegion, c).Failure? <==>
        forall j :: 1 <= j <= MAX_RETRIES ==>
          !Accepted(c.generateObject(SoapRequest(language, Clean(rawText), detail, bodyRegion, c), j)))
  {
    var cleaned := Clean(rawText);
    if ValidateTranscriptLength(cleaned).valid {
      var _ := AttemptFacts(SoapRequest(language, cleaned, detail, bodyRegion, c), c, 1);
    }
  }

  /**
   * `generateSoapWithRetry`: the cleaned text is validated once (every
   * attempt would validate the same text again with the same outcome);
   * an invalid length fails without calling the model, otherwise the
   * attempts are those of RetryAttempts.
   */
  method GenerateSoapWithRetry(rawText: string, language: LanguagePref, detail: Detail, bodyRegion: Option<string>, c: Collaborators)
    returns (r: Result<Generated, GenerationError>, ghost attempts: nat, ghost delays: seq<nat>)
    ensures r == Generation(rawText, language, detail, bodyRegion, c)
    ensures !ValidateTranscriptLength(Clean(rawText)).valid ==> attempts == 0 && delays == []
    ensures ValidateTranscriptLength(Clean(rawText)).valid ==>
      var req := SoapRequest(language, Clean(rawText), detail, bodyRegion, c);
      && 1 <= attempts <= MAX_RETRIES
      && (forall k :: 1 <= k < attempts ==> !Accepted(c.generateObject(req, k)))
      && (r.Success? <==> Accepted(c.generateObject(req, attempts)))
    ensures ValidateTranscriptLength(Clean(rawText)).valid ==> WaitedBefore(attempts, delays)
  {
    var cleaned := Clean(rawText);
    var validation := ValidateTranscriptLength(cleaned);
    if !validation.valid {
      r, attempts, delays := Failure(InvalidLength(validation.error)), 0, [];
    } else {
      var req := SoapRequest(language, cleaned, detail, bodyRegion, c);
      r, attempts, delays := RetryAttempts(req, c);
    }
  }

  /** The options of `generateSoapNote`; an absent key is `None`. */
  datatype GenerateOptions = GenerateOptions(
    language: Option<LanguagePref>,
    detail: Option<Detail>,
    bodyRegion: Option<string>,
    saveTranscript: Option<bool>)

  /** Which of the two checked writes of `generateSoapNote` fail. */
  datatype GenerateFaults = GenerateFaults(transcriptInsert: bool, noteInsert: bool)

  /** The model name a generated note records. */
  function NoteModel(env: Env): (m: string)
    ensures |m| > |"azure:"| && m[..6] == "azure:" && m[6..] == GetModelDeployment(env)
  {
    "azure:" + GetModelDeployment(env)
  }

  /** A stored transcript of the visit hashes like `rawText`. */
  predicate HashSeen(transcripts: seq<Transcript>, visitId: Id, rawText: string) {
    exists t :: t in transcripts && t.visitId == visitId && TranscriptHash(t.text) == TranscriptHash(rawText)
  }

  /** Every stored transcript of the visit, and there is one, hashes like `rawText`. */
  predicate HashAlwaysSeen(transcripts: seq<Transcript>, visitId: Id, rawText: string) {
    && (exists t :: t in transcripts && t.visitId == visitId)
    && forall t :: t in transcripts && t.visitId == visitId ==> TranscriptHash(t.text) == TranscriptHash(rawText)
  }

  /**
   * The idempotency lookup of `generateSoapNote`: some transcript of the
   * visit (the query has no order, so any one of them), and when it hashes
   * like `rawText`, the visit's highest-version note if there is one.
   */
  method FindReusableNote(db: Store, visitId: Id, rawText: string, reuseExisting: bool) returns (existing: Option<Note>)
    ensures existing.Some? ==>
      reuseExisting && HashSeen(db.transcripts, visitId, rawText) && existing == HighestVersion(db.notes, visitId)
    ensures reuseExisting && HashAlwaysSeen(db.transcripts, visitId, rawText) && HighestVersion(db.notes, visitId).Some? ==>
      existing.Some?
  {
    existing := None;
    var transcriptHash := HashTranscript(rawText);
    var ofVisit := Where(db.transcripts, (t: Transcript) => t.visitId == visitId);
    if reuseExisting && ofVisit != [] {
      assert ofVisit[0] in ofVisit;
      var found :| found in ofVisit;
      var foundHash := HashTranscript(found.text);
      if foundHash == transcriptHash {
        existing := HighestVersion(db.notes, visitId);
      }
    }
  }

  /**
   * Everything `generateSoapNote` does after the optional transcript save:
   * status processing, generation, then either status failed, or the note
   * with the next version, its usage metrics and status completed with
   * ended_at. A failed note insert leaves the status at processing.
   */
  method GenerateAndStore(
    db: Store, visitId: Id, rawText: string, language: LanguagePref, detail: Detail, bodyRegion: Option<string>,
    c: Collaborators, noteInsertFails: bool, now: string)
    returns (r: Result<Note, ActionError>, ghost statuses: seq<VisitStatus>)
    requires db.Valid()
    modifies db
    ensures db.Valid()
    ensures db.profiles == old(db.profiles) && db.patients == old(db.patients) && db.transcripts == old(db.transcripts)
    ensures Generation(rawText, language, detail, bodyRegion, c).Failure? ==>
      && r == Failure(GenerationFailed) && statuses == [Processing, Failed]
      && db.visits == PatchVisits(old(db.visits), visitId, VisitPatch(Failed, None, None))
      && db.notes == old(db.notes) && db.metrics == old(db.metrics)
    ensures Generation(rawText, language, detail, bodyRegion, c).Success? && noteInsertFails ==>
      && r == Failure(WriteFailed) && statuses == [Processing]
      && db.visits == PatchVisits(old(db.visits), visitId, VisitPatch(Processing, None, None))
      && db.notes == old(db.notes) && db.metrics == old(db.metrics)
    ensures Generation(rawText, language, detail, bodyRegion, c).Success? && !noteInsertFails ==> r.Success?
    ensures r.Success? ==> statuses == [Processing, Completed]
    ensures r.Success? ==> SoapValid(r.value.soap)
    ensures r.Success? ==>
      && r.value.visitId == visitId && r.value.soap == Generation(rawText, language, detail, bodyRegion, c).value.soap
      && r.value.model == NoteModel(c.env) && r.value.version == NextVersion(old(db.notes), visitId)
      && !r.value.isFinal
    ensures r.Success? ==> db.notes == old(db.notes) + [r.value]
    ensures r.Success? ==>
      db.metrics == old(db.metrics) + [MetricsRequest(visitId, None, None,
        Some(Generation(rawText, language, detail, bodyRegion, c).value.tokensIn),
        Some(Generation(rawText, language, detail, bodyRegion, c).value.tokensOut), Some(r.value.model))]
    ensures r.Success? ==> db.visits == PatchVisits(old(db.visits), visitId, VisitPatch(Completed, None, Some(now)))
    ensures VersionsDistinct(old(db.notes)) ==> VersionsDistinct(db.notes)
  {
    db.UpdateVisits(visitId, VisitPatch(Processing, None, None));
    statuses := [Processing];

    var generated, attempts, delays := GenerateSoapWithRetry(rawText, language, detail, bodyRegion, c);
    GenerationFacts(rawText, language, detail, bodyRegion, c);
    if generated.Failure? {
      db.UpdateVisits(visitId, VisitPatch(Failed, None, None));
      statuses := [Processing, Failed];
      StatusPatchesCollapse(old(db.visits), visitId, Processing, VisitPatch(Failed, None, None));
      return Failure(GenerationFailed), statuses;
    }

    var nextVersion := NextVersion(db.notes, visitId);
    var model := NoteModel(c.env);
    if noteInsertFails {
      return Failure(WriteFailed), statuses;
    }
    var note := db.InsertNote(visitId, generated.value.soap, model, nextVersion, false);
    ghost var distinctBefore := VersionsDistinct(old(db.notes));
    if distinctBefore {
      NextVersionKeepsDistinct(old(db.notes), note);
    }

    // both counters are always numbers here, so `|| 0` keeps them as they are
    db.InsertMetrics(MetricsRequest(visitId, None, None,
      Some(generated.value.tokensIn), Some(generated.value.tokensOut), Some(model)));

    db.UpdateVisits(visitId, VisitPatch(Completed, None, Some(now)));
    statuses := [Processing, Completed];
    StatusPatchesCollapse(old(db.visits), visitId, Processing, VisitPatch(Completed, None, Some(now)));
    return Success(note), statuses;
  }

  /**
   * `generateSoapNote`. `reuseExisting` is true for every call the source
   * makes; the corrected regeneration below passes false to skip the
   * idempotent short-circuit.
   *
   * The ghost results: `statuses` lists the statuses written to the visit in
   * order, and `reused` says whether the short-circuit returned a stored note.
   */
  method GenerateSoapNote(
    db: Store, userId: Option<string>, visitId: Id, rawText: string, options: GenerateOptions,
    reuseExisting: bool, c: Collaborators, faults: GenerateFaults, now: string)
    returns (r: Result<Note, ActionError>, ghost statuses: seq<VisitStatus>, ghost reused: bool)
    requires db.Valid()
    modifies db
    ensures db.Valid()
    ensures db.profiles == old(db.profiles) && db.patients == old(db.patients)
    // no profile or no owned visit: nothing is written
    ensures CurrentProfileId(old(db.profiles), userId).Failure? ==>
      r == Failure(CurrentProfileId(old(db.profiles), userId).error) && unchanged(db) && statuses == []
    ensures CurrentProfileId(old(db.profiles), userId).Success? &&
            AdmittedVisit(old(db.profiles), old(db.visits), userId, visitId).None? ==>
      r == Failure(VisitNotFound) && unchanged(db) && statuses == []
    // the idempotent short-circuit
    ensures reused ==>
      && reuseExisting
      && AdmittedVisit(old(db.profiles), old(db.visits), userId, visitId).Some?
      && HashSeen(old(db.transcripts), visitId, rawText)
      && HighestVersion(old(db.notes), visitId).Some?
      && r == Success(HighestVersion(old(db.notes), visitId).value)
      && unchanged(db) && statuses == []
    ensures reuseExisting && AdmittedVisit(old(db.profiles), old(db.visits), userId, visitId).Some? &&
            HashAlwaysSeen(old(db.transcripts), visitId, rawText) && HighestVersion(old(db.notes), visitId).Some? ==>
      reused
    ensures !HashSeen(old(db.transcripts), visitId, rawText) || HighestVersion(old(db.notes), visitId).None? ==> !reused
    // the transcript is saved, cleaned, before any status change
    ensures AdmittedVisit(old(db.profiles), old(db.visits), userId, visitId).Some? && !reused ==>
      if options.saveTranscript.GetOr(false) then
        if faults.transcriptInsert then r == Failure(WriteFailed) && unchanged(db) && statuses == []
        else db.transcripts == old(db.transcripts) + [Transcript(RowId(old(db.clock)), visitId, Clean(rawText),
               Some(LanguageName(options.language.GetOr(De))), None, old(db.clock))]
      else db.transcripts == old(db.transcripts)
    // the status sequence and the new note
    ensures AdmittedVisit(old(db.profiles), old(db.visits), userId, visitId).Some? && !reused &&
            !(options.saveTranscript.GetOr(false) && faults.transcriptInsert) ==>
      var generation := Generation(rawText, options.language.GetOr(De), options.detail.GetOr(Detailed), options.bodyRegion, c);
      if generation.Failure? then
        && r == Failure(GenerationFailed) && statuses == [Processing, Failed]
        && db.visits == PatchVisits(old(db.visits), visitId, VisitPatch(Failed, None, None))
        && db.notes == old(db.notes) && db.metrics == old(db.metrics)
      else if faults.noteInsert then
        && r == Failure(WriteFailed) && statuses == [Processing]
        && db.visits == PatchVisits(old(db.visits), visitId, VisitPatch(Processing, None, None))
        && db.notes == old(db.notes) && db.metrics == old(db.metrics)
      else
        && r.Success? && statuses == [Processing, Completed]
        && r.value.visitId == visitId && r.value.soap == generation.value.soap
        && r.value.model == NoteModel(c.env) && r.value.version == NextVersion(old(db.notes), visitId)
        && !r.value.isFinal
        && db.notes == old(db.notes) + [r.value]
        && db.metrics == old(db.metrics) + [MetricsRequest(visitId, None, None,
             Some(generation.value.tokensIn), Some(generation.value.tokensOut), Some(r.value.model))]
        && db.visits == PatchVisits(old(db.visits), visitId, VisitPatch(Completed, None, Some(now)))
    ensures r.Success? && !reused ==> SoapValid(r.value.soap)
    ensures VersionsDistinct(old(db.notes)) ==> VersionsDistinct(db.notes)
  {
    statuses, reused := [], false;
    var language := options.language.GetOr(De);
    var detail := options.detail.GetOr(Detailed);
    var shouldSave := options.saveTranscript.GetOr(false);

    var profileId := CurrentProfileId(db.profiles, userId);
    if profileId.Failure? {
      return Failure(profileId.error), statuses, reused;
    }
    var visit := OwnedVisit(db.visits, visitId, profileId.value);
    if visit.None? {
      return Failure(VisitNotFound), statuses, reused;
    }

    var existingNote := FindReusableNote(db, visitId, rawText, reuseExisting);
    if existingNote.Some? {
      reused := true;
      return Success(existingNote.value), statuses, reused;
    }

    if shouldSave {
      var cleaned := Clean(rawText);
      if faults.transcriptInsert {
        return Failure(WriteFailed), statuses, reused;
      }
      var _ := db.InsertTranscript(visitId, cleaned, Some(LanguageName(language)), None);
    }

    r, statuses := GenerateAndStore(db, visitId, rawText, language, detail, options.bodyRegion, c, faults.noteInsert, now);
    GenerationFacts(rawText, language, detail, options.bodyRegion, c);
  }

  /** The note named by `noteId` when the caller's profile owns its visit. */
  function AdmittedNote(profiles: seq<Profile>, notes: seq<Note>, visits: seq<Visit>, userId: Option<string>, noteId: Id)
    : (r: Option<Note>)
    ensures CurrentProfileId(profiles, userId).Failure? ==> r.None?
    ensures r.Some? ==> r.value in notes && r.value.id == noteId
    ensures r.Some? ==> exists v :: v in visits && v.id == r.value.visitId && v.providerId == CurrentProfileId(profiles, userId).value
  {
    match CurrentProfileId(profiles, userId)
    case Failure(_) => None
    case Success(profileId) => OwnedNote(notes, visits, noteId, profileId)
  }

  /**
   * Replacing the SOAP of a note changes nothing but that note's SOAP: id,
   * visit, model, version and the final flag stay, final or not, and every
   * other note stays as it is.
   */
  lemma ReplaceSoapChangesOnlySoap(notes: seq<Note>, noteId: Id, soap: SoapNote)
    ensures |PatchNotes(notes, noteId, ReplaceSoap(soap))| == |notes|
    ensures forall i :: 0 <= i < |notes| ==>
      var n := PatchNotes(notes, noteId, ReplaceSoap(soap))[i];
      && n.id == notes[i].id && n.visitId == notes[i].visitId && n.model == notes[i].model
      && n.version == notes[i].version && n.isFinal == notes[i].isFinal
      && n.soap == (if notes[i].id == noteId then soap else notes[i].soap)
    ensures VersionsDistinct(notes) ==> VersionsDistinct(PatchNotes(notes, noteId, ReplaceSoap(soap)))
  {
  }

  /**
   * Finalising sets only the final flag of the named note, and finalising
   * again changes nothing.
   */
  lemma MarkFinalIdempotent(notes: seq<Note>, noteId: Id)
    ensures forall i :: 0 <= i < |notes| ==>
      PatchNotes(notes, noteId, MarkFinal)[i] == if notes[i].id == noteId then notes[i].(isFinal := true) else notes[i]
    ensures PatchNotes(PatchNotes(notes, noteId, MarkFinal), noteId, MarkFinal) == PatchNotes(notes, noteId, MarkFinal)
    ensures VersionsDistinct(notes) ==> VersionsDistinct(PatchNotes(notes, noteId, MarkFinal))
  {
    var once := PatchNotes(notes, noteId, MarkFinal);
    var twice := PatchNotes(once, noteId, MarkFinal);
    assert forall i :: 0 <= i < |notes| ==> twice[i] == once[i];
  }

  /**
   * `updateSoapNote`: the SOAP is validated before anything else; then the
   * caller's profile and the note's ownership through its visit; then only
   * the SOAP of the note is replaced.
   */
  method UpdateSoapNote(db: Store, userId: Option<string>, noteId: Id, soap: SoapNote, updateFails: bool)
    returns (r: Result<Note, ActionError>)
    requires db.Valid()
    modifies db
    ensures db.Valid()
    ensures ParseSoap(soap).Failure? ==> r == Failure(InvalidInput(ParseSoap(soap).error)) && unchanged(db)
    ensures ParseSoap(soap).Success? && CurrentProfileId(old(db.profiles), userId).Failure? ==>
      r == Failure(CurrentProfileId(old(db.profiles), userId).error) && unchanged(db)
    ensures ParseSoap(soap).Success? && CurrentProfileId(old(db.profiles), userId).Success? &&
            AdmittedNote(old(db.profiles), old(db.notes), old(db.visits), userId, noteId).None? ==>
      r == Failure(NoteNotFound) && unchanged(db)
    ensures ParseSoap(soap).Success? && AdmittedNote(old(db.profiles), old(db.notes), old(db.visits), userId, noteId).Some? ==>
      if updateFails then r == Failure(WriteFailed) && unchanged(db)
      else
        && r == Success(AdmittedNote(old(db.profiles), old(db.notes), old(db.visits), userId, noteId).value.(soap := soap))
        && db.notes == PatchNotes(old(db.notes), noteId, ReplaceSoap(soap))
        && db.profiles == old(db.profiles) && db.patients == old(db.patients) && db.visits == old(db.visits)
        && db.transcripts == old(db.transcripts) && db.metrics == old(db.metrics) && db.clock == old(db.clock)
  {
    var validation := ParseSoap(soap);
    if validation.Failure? {
      return Failure(InvalidInput(validation.error));
    }
    var profileId := CurrentProfileId(db.profiles, userId);
    if profileId.Failure? {
      return Failure(profileId.error);
    }
    var existing := OwnedNote(db.notes, db.visits, noteId, profileId.value);
    if existing.None? {
      return Failure(NoteNotFound);
    }
    if updateFails {
      return Failure(WriteFailed);
    }
    db.UpdateNotes(noteId, ReplaceSoap(validation.value));
    return Success(existing.value.(soap := validation.value));
  }

  /** `markNoteAsFinal`: after the ownership check, only the final flag of the note is set. */
  method MarkNoteAsFinal(db: Store, userId: Option<string>, noteId: Id, updateFails: bool)
    returns (r: Result<Note, ActionError>)
    requires db.Valid()
    modifies db
    ensures db.Valid()
    ensures CurrentProfileId(old(db.profiles), userId).Failure? ==>
      r == Failure(CurrentProfileId(old(db.profiles), userId).error) && unchanged(db)
    ensures CurrentProfileId(old(db.profiles), userId).Success? &&
            AdmittedNote(old(db.profiles), old(db.notes), old(db.visits), userId, noteId).None? ==>
      r == Failure(NoteNotFound) && unchanged(db)
    ensures AdmittedNote(old(db.profiles), old(db.notes), old(db.visits), userId, noteId).Some? ==>
      if updateFails then r == Failure(WriteFailed) && unchanged(db)
      else
        && r == Success(AdmittedNote(old(db.profiles), old(db.notes), old(db.visits), userId, noteId).value.(isFinal := true))
        && db.notes == PatchNotes(old(db.notes), noteId, MarkFinal)
        && db.profiles == old(db.profiles) && db.patients == old(db.patients) && db.visits == old(db.visits)
        && db.transcripts == old(db.transcripts) && db.metrics == old(db.metrics) && db.clock == old(db.clock)
  {
    var profileId := CurrentProfileId(db.profiles, userId);
    if profileId.Failure? {
      return Failure(profileId.error);
    }
    var existing := OwnedNote(db.notes, db.visits, noteId, profileId.value);
    if existing.None? {
      return Failure(NoteNotFound);
    }
    if updateFails {
      return Failure(WriteFailed);
    }
    db.UpdateNotes(noteId, MarkFinal);
    return Success(existing.value.(isFinal := true));
  }

  /** The options of `regenerateSoapNote`. */
  datatype RegenerateOptions = RegenerateOptions(language: Option<LanguagePref>, detail: Option<Detail>, bodyRegion: Option<string>)

  /** The text regeneration works from: the given text when non-empty, else the visit's latest transcript. */
  function RegenerationText(transcripts: seq<Transcript>, visitId: Id, rawText: Option<string>): (t: Option<string>)
    ensures rawText.Some? && Truthy(rawText.value) ==> t == rawText
    ensures !(rawText.Some? && Truthy(rawText.value)) ==>
      (t.None? <==> forall u :: u in transcripts ==> u.visitId != visitId)
    ensures !(rawText.Some? && Truthy(rawText.value)) && LatestTranscript(transcripts, visitId).Some? ==>
      t == Some(LatestTranscript(transcripts, visitId).value.text)
  {
    if rawText.Some? && Truthy(rawText.value) then rawText
    else
      match LatestTranscript(transcripts, visitId)
      case None => None
      case Some(latest) => Some(latest.text)
  }

  /** A visit with a single stored transcript: that transcript is the latest, and every lookup finds it. */
  lemma SingleTranscriptAlwaysSeen(transcripts: seq<Transcript>, visitId: Id)
    requires |Where(transcripts, (t: Transcript) => t.visitId == visitId)| == 1
    ensures LatestTranscript(transcripts, visitId).Some?
    ensures HashAlwaysSeen(transcripts, visitId, LatestTranscript(transcripts, visitId).value.text)
  {
    var only := Where(transcripts, (t: Transcript) => t.visitId == visitId)[0];
    assert only in Where(transcripts, (t: Transcript) => t.visitId == visitId);
    forall t | t in transcripts && t.visitId == visitId
      ensures t == only
    {
      assert t in Where(transcripts, (t: Transcript) => t.visitId == visitId);
    }
  }

  /**
   * `regenerateSoapNote` as written: without new text it takes the latest
   * stored transcript and hands it to `generateSoapNote` with the
   * short-circuit on. It does no ownership check of its own.
   *
   * When every stored transcript of the visit hashes like the latest one (a
   * visit with one transcript, say) and a note exists, the short-circuit
   * matches and the existing note comes back: no new version is created.
   */
  method RegenerateSoapNote(
    db: Store, userId: Option<string>, visitId: Id, rawText: Option<string>, options: RegenerateOptions,
    c: Collaborators, faults: GenerateFaults, now: string)
    returns (r: Result<Note, ActionError>, ghost reused: bool)
    requires db.Valid()
    modifies db
    ensures db.Valid()
    ensures RegenerationText(old(db.transcripts), visitId, rawText).None? ==> r == Failure(NoTranscript) && unchanged(db)
    ensures !(rawText.Some? && Truthy(rawText.value)) &&
            AdmittedVisit(old(db.profiles), old(db.visits), userId, visitId).Some? &&
            RegenerationText(old(db.transcripts), visitId, rawText).Some? &&
            HashAlwaysSeen(old(db.transcripts), visitId, RegenerationText(old(db.transcripts), visitId, rawText).value) &&
            HighestVersion(old(db.notes), visitId).Some? ==>
      && reused
      && r == Success(HighestVersion(old(db.notes), visitId).value)
      && unchanged(db)
    ensures r.Success? && !reused ==>
      r.value.version == NextVersion(old(db.notes), visitId) && db.notes == old(db.notes) + [r.value]
  {
    reused := false;
    var textToUse: string;
    if rawText.Some? && Truthy(rawText.value) {
      textToUse := rawText.value;
    } else {
      var transcript := LatestTranscript(db.transcripts, visitId);
      if transcript.None? {
        return Failure(NoTranscript), reused;
      }
      textToUse := transcript.value.text;
    }
    ghost var statuses;
    r, statuses, reused := GenerateSoapNote(db, userId, visitId, textToUse,
      GenerateOptions(options.language, options.detail, options.bodyRegion, None), true, c, faults, now);
  }

  /**
   * `regenerateSoapNote` as its documentation intends it: the same text
   * selection, but generation always runs and an owned visit whose
   * generation succeeds gets a new note one version above every stored one.
   */
  method RegenerateSoapNoteFresh(
    db: Store, userId: Option<string>, visitId: Id, rawText: Option<string>, options: RegenerateOptions,
    c: Collaborators, faults: GenerateFaults, now: string)
    returns (r: Result<Note, ActionError>)
    requires db.Valid()
    modifies db
    ensures db.Valid()
    ensures RegenerationText(old(db.transcripts), visitId, rawText).None? ==> r == Failure(NoTranscript) && unchanged(db)
    ensures AdmittedVisit(old(db.profiles), old(db.visits), userId, visitId).Some? &&
            RegenerationText(old(db.transcripts), visitId, rawText).Some? &&
            Generation(RegenerationText(old(db.transcripts), visitId, rawText).value,
              options.language.GetOr(De), options.detail.GetOr(Detailed), options.bodyRegion, c).Success? &&
            !faults.noteInsert ==>
      && r.Success?
      && r.value.version == NextVersion(old(db.notes), visitId)
      && (forall n :: n in old(db.notes) && n.visitId == visitId ==> n.version < r.value.version)
      && db.notes == old(db.notes) + [r.value]
    ensures r.Success? ==> r.value.version == NextVersion(old(db.notes), visitId) && db.notes == old(db.notes) + [r.value]
  {
    var textToUse: string;
    if rawText.Some? && Truthy(rawText.value) {
      textToUse := rawText.value;
    } else {
      var transcript := LatestTranscript(db.transcripts, visitId);
      if transcript.None? {
        return Failure(NoTranscript);
      }
      textToUse := transcript.value.text;
    }
    ghost var statuses, reused;
    r, statuses, reused := GenerateSoapNote(db, userId, visitId, textToUse,
      GenerateOptions(options.language, options.detail, options.bodyRegion, None), false, c, faults, now);
  }
}
