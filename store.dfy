/**
 * The relational state the server actions read and write: the rows of the
 * profiles, patients, visits, transcripts, notes and usage_metrics tables
 * held in an in-memory store, the query shapes the actions use, and the
 * caller's profile lookup that every action starts with.
 *
 * The database generates row ids and creation times itself; the store
 * numbers both by a counter.
 */
module Database {
  import opened Wrappers
  import opened JsText
  import opened Schemas
  import TranscriptUtils

  type Id = string

  datatype Profile = Profile(id: Id, clerkUserId: string)

  datatype Patient = Patient(id: Id, ownerId: Id)

  datatype Visit = Visit(
    id: Id,
    patientId: Id,
    providerId: Id,
    status: VisitStatus,
    languagePref: LanguagePref,
    startedAt: Option<string>,
    endedAt: Option<string>)

  /** A transcript row; `raw_json` is not represented and `createdAt` is the creation tick. */
  datatype Transcript = Transcript(
    id: Id,
    visitId: Id,
    text: string,
    language: Option<string>,
    confidence: Option<real>,
    createdAt: nat)

  datatype Note = Note(id: Id, visitId: Id, soap: SoapNote, model: string, version: int, isFinal: bool)

  /**
   * A usage_metrics row, kept as the arguments handed to `createUsageMetrics`
   * (the mapping that function applies is not part of this model).
   */
  datatype MetricsRequest = MetricsRequest(
    visitId: Id,
    sttSeconds: Option<int>,
    sttModel: Option<string>,
    llmTokensIn: Option<int>,
    llmTokensOut: Option<int>,
    llmModel: Option<string>)

  /** The columns an update of a visit sets; `None` leaves a timestamp column as it is. */
  datatype VisitPatch = VisitPatch(status: VisitStatus, startedAt: Option<string>, endedAt: Option<string>)

  /** The two updates the actions apply to a note. */
  datatype NotePatch = ReplaceSoap(soap: SoapNote) | MarkFinal

  /** Why an action gave up; the user-facing message texts are not modelled. */
  datatype ActionError =
    | NotAuthenticated
    | ProfileNotFound
    | InvalidInput(issues: seq<Issue>)
    | InvalidTranscript(lengthError: Option<TranscriptUtils.LengthError>)
    | InvalidStatus
    | PatientNotFound
    | VisitNotFound
    | NoteNotFound
    | NoTranscript
    | GenerationFailed
    | WriteFailed

  /** The rows of `rows` that satisfy `p`, in table order (a `.eq(…)` filter). */
  function Where<T(!new)>(rows: seq<T>, p: T -> bool): (r: seq<T>)
    ensures |r| <= |rows|
    ensures forall x :: x in r <==> x in rows && p(x)
  {
    if rows == [] then [] else (if p(rows[0]) then [rows[0]] else []) + Where(rows[1..], p)
  }

  /** `.single()`: the matching row when there is exactly one, nothing otherwise. */
  function Single<T(!new)>(rows: seq<T>, p: T -> bool): (r: Option<T>)
    ensures r.Some? <==> |Where(rows, p)| == 1
    ensures r.Some? ==> r.value in rows && p(r.value)
    ensures r.Some? ==> forall x :: x in rows && p(x) ==> x == r.value
  {
    var matches := Where(rows, p);
    if |matches| == 1 then Some(matches[0]) else None
  }

  /** No row satisfies `p`, so nothing matches. */
  lemma {:induction false} WhereNone<T(!new)>(rows: seq<T>, p: T -> bool)
    requires forall x :: x in rows ==> !p(x)
    ensures Where(rows, p) == []
  {
    if rows != [] {
      assert forall x :: x in rows[1..] ==> x in rows;
      WhereNone(rows[1..], p);
    }
  }

  /** When no two rows satisfy `p`, at most one row matches. */
  lemma {:induction false} WhereAtMostOne<T(!new)>(rows: seq<T>, p: T -> bool)
    requires forall i, j :: 0 <= i < j < |rows| && p(rows[i]) ==> !p(rows[j])
    ensures |Where(rows, p)| <= 1
  {
    if rows != [] {
      WhereAtMostOne(rows[1..], p);
      if p(rows[0]) {
        forall x | x in rows[1..]
          ensures !p(x)
        {
          var k :| 0 <= k < |rows[1..]| && rows[1..][k] == x;
          assert rows[k + 1] == x;
        }
        WhereNone(rows[1..], p);
      }
    }
  }

  /** When no two rows satisfy `p`, `.single()` finds the one row that does. */
  lemma SingleFound<T(!new)>(rows: seq<T>, p: T -> bool, x: T)
    requires forall i, j :: 0 <= i < j < |rows| && p(rows[i]) ==> !p(rows[j])
    requires x in rows && p(x)
    ensures Single(rows, p) == Some(x)
  {
    WhereAtMostOne(rows, p);
    assert x in Where(rows, p);
  }

  /** The filter `.eq("id", visitId).eq("provider_id", providerId)`. */
  function VisitOf(visitId: Id, providerId: Id): Visit -> bool {
    (v: Visit) => v.id == visitId && v.providerId == providerId
  }

  /** The visit with this id when it belongs to this provider. */
  function OwnedVisit(visits: seq<Visit>, visitId: Id, providerId: Id): (r: Option<Visit>)
    ensures r.Some? ==> r.value in visits && r.value.id == visitId && r.value.providerId == providerId
  {
    Single(visits, VisitOf(visitId, providerId))
  }

  /**
   * The note of the visit with the highest version (`order by version desc
   * limit 1`); among notes of equal version the earliest stored one.
   */
  function HighestVersion(notes: seq<Note>, visitId: Id): (r: Option<Note>)
    ensures r.None? <==> forall n :: n in notes ==> n.visitId != visitId
    ensures r.Some? ==> r.value in notes && r.value.visitId == visitId
    ensures r.Some? ==> forall n :: n in notes && n.visitId == visitId ==> n.version <= r.value.version
  {
    if notes == [] then None
    else
      var rest := HighestVersion(notes[1..], visitId);
      if notes[0].visitId != visitId then rest
      else if rest.Some? && rest.value.version > notes[0].version then rest
      else Some(notes[0])
  }

  /**
   * The transcript of the visit created last (`order by created_at desc
   * limit 1`); among equal creation ticks the earliest stored one.
   */
  function LatestTranscript(transcripts: seq<Transcript>, visitId: Id): (r: Option<Transcript>)
    ensures r.None? <==> forall t :: t in transcripts ==> t.visitId != visitId
    ensures r.Some? ==> r.value in transcripts && r.value.visitId == visitId
    ensures r.Some? ==> forall t :: t in transcripts && t.visitId == visitId ==> t.createdAt <= r.value.createdAt
  {
    if transcripts == [] then None
    else
      var rest := LatestTranscript(transcripts[1..], visitId);
      if transcripts[0].visitId != visitId then rest
      else if rest.Some? && rest.value.createdAt > transcripts[0].createdAt then rest
      else Some(transcripts[0])
  }

  /** The version a new note of the visit gets: one above the highest, 1 for the first note. */
  function NextVersion(notes: seq<Note>, visitId: Id): (v: int)
    ensures forall n :: n in notes && n.visitId == visitId ==> n.version < v
    ensures (forall n :: n in notes ==> n.visitId != visitId) ==> v == 1
    ensures (exists n :: n in notes && n.visitId == visitId) ==>
      exists n :: n in notes && n.visitId == visitId && v == n.version + 1
  {
    match HighestVersion(notes, visitId)
    case None => 1
    case Some(n) => n.version + 1
  }

  /** Every note has a version of at least 1, and no two notes of one visit share a version. */
  predicate VersionsDistinct(notes: seq<Note>) {
    && (forall i :: 0 <= i < |notes| ==> notes[i].version >= 1)
    && (forall i, j :: 0 <= i < j < |notes| && notes[i].visitId == notes[j].visitId ==>
          notes[i].version != notes[j].version)
  }

  /** Storing a note with the next version keeps the versions of every visit distinct and positive. */
  lemma NextVersionKeepsDistinct(notes: seq<Note>, n: Note)
    requires VersionsDistinct(notes)
    requires n.version == NextVersion(notes, n.visitId)
    ensures VersionsDistinct(notes + [n])
  {
    var all := notes + [n];
    forall i | 0 <= i < |notes| && notes[i].visitId == n.visitId
      ensures notes[i].version < n.version
    {
      assert notes[i] in notes;
    }
    forall i, j | 0 <= i < j < |all| && all[i].visitId == all[j].visitId
      ensures all[i].version != all[j].version
    {
      if j == |notes| {
        assert all[i] == notes[i];
      } else {
        assert all[i] == notes[i] && all[j] == notes[j];
      }
    }
    if (forall m :: m in notes ==> m.visitId != n.visitId) {
      assert n.version == 1;
    } else {
      var m :| m in notes && m.visitId == n.visitId && n.version == m.version + 1;
      var k :| 0 <= k < |notes| && notes[k] == m;
      assert m.version >= 1;
    }
  }

  /** The visit after an update: the status always, a timestamp only when the patch names it. */
  function PatchVisit(v: Visit, p: VisitPatch): Visit {
    v.(status := p.status,
       startedAt := if p.startedAt.Some? then p.startedAt else v.startedAt,
       endedAt := if p.endedAt.Some? then p.endedAt else v.endedAt)
  }

  /** `.update(p).eq("id", visitId)`: rewrites every row with that id; the others stay as they are. */
  function PatchVisits(visits: seq<Visit>, visitId: Id, p: VisitPatch): (r: seq<Visit>)
    ensures |r| == |visits|
  {
    seq(|visits|, i requires 0 <= i < |visits| => if visits[i].id == visitId then PatchVisit(visits[i], p) else visits[i])
  }

  function PatchNote(n: Note, p: NotePatch): Note {
    match p
    case ReplaceSoap(soap) => n.(soap := soap)
    case MarkFinal => n.(isFinal := true)
  }

  /** `.update(…).eq("id", noteId)` on the notes table. */
  function PatchNotes(notes: seq<Note>, noteId: Id, p: NotePatch): (r: seq<Note>)
    ensures |r| == |notes|
  {
    seq(|notes|, i requires 0 <= i < |notes| => if notes[i].id == noteId then PatchNote(notes[i], p) else notes[i])
  }

  /** An update only rewrites the matched rows, and only the columns it names. */
  lemma PatchVisitsFacts(visits: seq<Visit>, visitId: Id, p: VisitPatch)
    ensures forall i :: 0 <= i < |visits| && visits[i].id != visitId ==> PatchVisits(visits, visitId, p)[i] == visits[i]
    ensures forall i :: 0 <= i < |visits| && visits[i].id == visitId ==>
      var v := PatchVisits(visits, visitId, p)[i];
      && v.status == p.status
      && v.id == visits[i].id && v.patientId == visits[i].patientId && v.providerId == visits[i].providerId
      && v.languagePref == visits[i].languagePref
      && (p.startedAt.None? ==> v.startedAt == visits[i].startedAt)
      && (p.endedAt.None? ==> v.endedAt == visits[i].endedAt)
      && (p.startedAt.Some? ==> v.startedAt == p.startedAt)
      && (p.endedAt.Some? ==> v.endedAt == p.endedAt)
  {
  }

  /** Two status-only updates of the same visit leave what the second one alone would leave. */
  lemma StatusPatchesCollapse(visits: seq<Visit>, visitId: Id, first: VisitStatus, second: VisitPatch)
    ensures PatchVisits(PatchVisits(visits, visitId, VisitPatch(first, None, None)), visitId, second)
         == PatchVisits(visits, visitId, second)
  {
    var once := PatchVisits(visits, visitId, VisitPatch(first, None, None));
    assert forall i :: 0 <= i < |visits| ==> once[i].id == visits[i].id;
  }

  /** The filter `.eq("clerk_user_id", userId)`. */
  function ProfileOf(userId: string): Profile -> bool {
    (p: Profile) => p.clerkUserId == userId
  }

  /**
   * `getCurrentProfileId`: a caller without a user id is not signed in; a
   * signed-in caller needs exactly one profile with that Clerk user id.
   */
  function CurrentProfileId(profiles: seq<Profile>, userId: Option<string>): (r: Result<Id, ActionError>)
    ensures (userId.None? || !Truthy(userId.value)) ==> r == Failure(NotAuthenticated)
    ensures r.Success? ==> exists p :: p in profiles && p.clerkUserId == userId.value && p.id == r.value
    ensures r.Failure? ==> r.error == NotAuthenticated || r.error == ProfileNotFound
    ensures userId.Some? && Truthy(userId.value) ==>
      var matches := Where(profiles, ProfileOf(userId.value));
      && (|matches| == 1 ==> r == Success(matches[0].id))
      && (|matches| != 1 ==> r == Failure(ProfileNotFound))
  {
    if userId.None? || !Truthy(userId.value) then Failure(NotAuthenticated)
    else
      match Single(profiles, ProfileOf(userId.value))
      case None => Failure(ProfileNotFound)
      case Some(p) => Success(p.id)
  }

  /** The visit named by `visitId` when the caller's profile owns it. */
  function AdmittedVisit(profiles: seq<Profile>, visits: seq<Visit>, userId: Option<string>, visitId: Id): (r: Option<Visit>)
    ensures CurrentProfileId(profiles, userId).Failure? ==> r.None?
    ensures r.Some? ==> r.value in visits && r.value.id == visitId && r.value.providerId == CurrentProfileId(profiles, userId).value
  {
    match CurrentProfileId(profiles, userId)
    case Failure(_) => None
    case Success(profileId) => OwnedVisit(visits, visitId, profileId)
  }

  /**
   * The note named by `noteId`, inner-joined with its visit, when that visit
   * belongs to `providerId`.
   */
  function OwnedNote(notes: seq<Note>, visits: seq<Visit>, noteId: Id, providerId: Id): (r: Option<Note>)
    ensures r.Some? ==> r.value in notes && r.value.id == noteId
    ensures r.Some? ==> exists v :: v in visits && v.id == r.value.visitId && v.providerId == providerId
  {
    match Single(notes, NoteWithId(noteId))
    case None => None
    case Some(n) =>
      match Single(visits, VisitWithId(n.visitId))
      case None => None
      case Some(v) => if v.providerId == providerId then Some(n) else None
  }

  /** The filter `.eq("id", noteId)` on notes. */
  function NoteWithId(noteId: Id): Note -> bool {
    (n: Note) => n.id == noteId
  }

  /** The inner join from a note to its visit. */
  function VisitWithId(visitId: Id): Visit -> bool {
    (v: Visit) => v.id == visitId
  }

  /** The id the database gives the row stored at counter value `n`. */
  function RowId(n: nat): Id {
    TranscriptUtils.Digits36(n)
  }

  /** `id` was given out before counter value `clock`. */
  predicate IssuedBefore(id: Id, clock: nat) {
    var k := TranscriptUtils.ParseDigits36(id);
    0 <= k < clock && id == RowId(k)
  }

  /** The id given out at `clock` differs from every id given out before. */
  lemma FreshRowId(clock: nat)
    ensures IssuedBefore(RowId(clock), clock + 1)
    ensures forall id :: IssuedBefore(id, clock) ==> id != RowId(clock)
  {
    TranscriptUtils.ParseDigits36RoundTrip(clock);
  }

  /** No two visits share an id (the primary key). */
  predicate VisitIdsUnique(visits: seq<Visit>) {
    forall i, j :: 0 <= i < j < |visits| ==> visits[i].id != visits[j].id
  }

  /** No two notes share an id (the primary key). */
  predicate NoteIdsUnique(notes: seq<Note>) {
    forall i, j :: 0 <= i < j < |notes| ==> notes[i].id != notes[j].id
  }

  /** With unique ids, the visit found by id and owner is every row carrying that id. */
  lemma OwnedVisitIsTheRow(visits: seq<Visit>, visitId: Id, providerId: Id)
    requires VisitIdsUnique(visits)
    requires OwnedVisit(visits, visitId, providerId).Some?
    ensures forall i :: 0 <= i < |visits| && visits[i].id == visitId ==> visits[i] == OwnedVisit(visits, visitId, providerId).value
  {
    var v := OwnedVisit(visits, visitId, providerId).value;
    var k :| 0 <= k < |visits| && visits[k] == v;
    forall i | 0 <= i < |visits| && visits[i].id == visitId
      ensures visits[i] == v
    {
      if i != k {
        assert false;
      }
    }
  }

  /** With unique ids, a visit of this provider carrying `visitId` is found. */
  lemma OwnedVisitFound(visits: seq<Visit>, v: Visit, providerId: Id)
    requires VisitIdsUnique(visits)
    requires v in visits && v.providerId == providerId
    ensures OwnedVisit(visits, v.id, providerId) == Some(v)
  {
    SingleFound(visits, VisitOf(v.id, providerId), v);
  }

  /**
   * With unique note and visit ids, a note whose visit belongs to the
   * provider is found by its id.
   */
  lemma OwnedNoteFound(notes: seq<Note>, visits: seq<Visit>, n: Note, v: Visit, providerId: Id)
    requires NoteIdsUnique(notes) && VisitIdsUnique(visits)
    requires n in notes && v in visits && v.id == n.visitId && v.providerId == providerId
    ensures OwnedNote(notes, visits, n.id, providerId) == Some(n)
  {
    SingleFound(notes, NoteWithId(n.id), n);
    SingleFound(visits, VisitWithId(v.id), v);
  }

  /** The in-memory database. */
  class Store {
    var profiles: seq<Profile>
    var patients: seq<Patient>
    var visits: seq<Visit>
    var transcripts: seq<Transcript>
    var notes: seq<Note>
    var metrics: seq<MetricsRequest>
    /** The counter behind generated ids and creation ticks. */
    var clock: nat

    /**
     * What the database guarantees: visit and note ids are unique and were
     * given out before the current tick, and every transcript was created
     * before it.
     */
    predicate Valid()
      reads this
    {
      && VisitIdsUnique(visits) && NoteIdsUnique(notes)
      && (forall i :: 0 <= i < |visits| ==> IssuedBefore(visits[i].id, clock))
      && (forall i :: 0 <= i < |notes| ==> IssuedBefore(notes[i].id, clock))
      && (forall t :: t in transcripts ==> t.createdAt < clock)
    }

    /** Profiles and patients are created elsewhere; visits and what hangs off them start empty. */
    constructor (profiles: seq<Profile>, patients: seq<Patient>)
      ensures Valid()
      ensures this.profiles == profiles && this.patients == patients
      ensures visits == [] && transcripts == [] && notes == [] && metrics == [] && clock == 0
    {
      this.profiles := profiles;
      this.patients := patients;
      visits := [];
      transcripts := [];
      notes := [];
      metrics := [];
      clock := 0;
    }

    method InsertVisit(patientId: Id, providerId: Id, status: VisitStatus, languagePref: LanguagePref)
      returns (v: Visit)
      requires Valid()
      modifies this
      ensures Valid()
      ensures v == Visit(RowId(old(clock)), patientId, providerId, status, languagePref, None, None)
      ensures visits == old(visits) + [v] && clock == old(clock) + 1
      ensures profiles == old(profiles) && patients == old(patients)
      ensures transcripts == old(transcripts) && notes == old(notes) && metrics == old(metrics)
    {
      FreshRowId(clock);
      v := Visit(RowId(clock), patientId, providerId, status, languagePref, None, None);
      visits := visits + [v];
      clock := clock + 1;
    }

    method UpdateVisits(visitId: Id, p: VisitPatch)
      requires Valid()
      modifies this
      ensures Valid()
      ensures visits == PatchVisits(old(visits), visitId, p)
      ensures profiles == old(profiles) && patients == old(patients) && clock == old(clock)
      ensures transcripts == old(transcripts) && notes == old(notes) && metrics == old(metrics)
    {
      visits := PatchVisits(visits, visitId, p);
    }

    method InsertTranscript(visitId: Id, text: string, language: Option<string>, confidence: Option<real>)
      returns (t: Transcript)
      requires Valid()
      modifies this
      ensures Valid()
      ensures t == Transcript(RowId(old(clock)), visitId, text, language, confidence, old(clock))
      ensures transcripts == old(transcripts) + [t] && clock == old(clock) + 1
      ensures profiles == old(profiles) && patients == old(patients)
      ensures visits == old(visits) && notes == old(notes) && metrics == old(metrics)
      ensures LatestTranscript(transcripts, visitId) == Some(t)
    {
      t := Transcript(RowId(clock), visitId, text, language, confidence, clock);
      LatestTranscriptOfAppended(transcripts, t);
      transcripts := transcripts + [t];
      clock := clock + 1;
    }

    method InsertNote(visitId: Id, soap: SoapNote, model: string, version: int, isFinal: bool)
      returns (n: Note)
      requires Valid()
      modifies this
      ensures Valid()
      ensures n == Note(RowId(old(clock)), visitId, soap, model, version, isFinal)
      ensures notes == old(notes) + [n] && clock == old(clock) + 1
      ensures profiles == old(profiles) && patients == old(patients)
      ensures visits == old(visits) && transcripts == old(transcripts) && metrics == old(metrics)
    {
      FreshRowId(clock);
      n := Note(RowId(clock), visitId, soap, model, version, isFinal);
      notes := notes + [n];
      clock := clock + 1;
    }

    method UpdateNotes(noteId: Id, p: NotePatch)
      requires Valid()
      modifies this
      ensures Valid()
      ensures notes == PatchNotes(old(notes), noteId, p)
      ensures profiles == old(profiles) && patients == old(patients) && clock == old(clock)
      ensures visits == old(visits) && transcripts == old(transcripts) && metrics == old(metrics)
    {
      notes := PatchNotes(notes, noteId, p);
    }

    method InsertMetrics(m: MetricsRequest)
      requires Valid()
      modifies this
      ensures Valid()
      ensures metrics == old(metrics) + [m]
      ensures profiles == old(profiles) && patients == old(patients) && clock == old(clock)
      ensures visits == old(visits) && transcripts == old(transcripts) && notes == old(notes)
    {
      metrics := metrics + [m];
    }
  }

  /** A transcript created after every stored one becomes the latest of its visit. */
  lemma LatestTranscriptOfAppended(transcripts: seq<Transcript>, t: Transcript)
    requires forall u :: u in transcripts ==> u.createdAt < t.createdAt
    ensures LatestTranscript(transcripts + [t], t.visitId) == Some(t)
  {
    var all := transcripts + [t];
    var r := LatestTranscript(all, t.visitId);
    assert t in all;
    assert r.value in transcripts || r.value == t;
  }
}
