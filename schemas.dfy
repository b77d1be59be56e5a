/**
 * The row enums and the SOAP record of src/lib/database.types.ts, and the
 * validators of src/lib/schemas.ts.
 *
 * A schema's `safeParse` is a function from the input to either the parsed
 * value (defaults filled in) or the list of every issue found, in the order
 * the schema declares its keys and each key its checks. Issue messages are
 * not modelled, only where an issue is and what kind it is. Each parse
 * function is paired with a declarative validity predicate.
 */
module Schemas {
  import opened Wrappers
  import opened JsText

  // ---------------------------------------------------------------------------
  // Row types
  // ---------------------------------------------------------------------------

  datatype VisitStatus = Draft | Recording | Processing | Completed | Failed

  datatype LanguagePref = De | Fr | Auto

  datatype SoapNote = SoapNote(subjective: string, objective: string, assessment: string, plan: string)

  // ---------------------------------------------------------------------------
  // Issues
  // ---------------------------------------------------------------------------

  datatype IssueKind =
    | TooSmall(minimum: int)
    | TooBig(maximum: int)
    | InvalidString     // a failed `regex` or `uuid` check
    | InvalidEnumValue
    | NotInteger
    | InvalidLiteral

  datatype Issue = Issue(path: string, kind: IssueKind)

  /** A `z.string().min(min).max(max)` check on `s`, reported under `path`. */
  function LengthIssues(path: string, s: string, min: nat, max: nat): (r: seq<Issue>)
    ensures r == [] <==> min <= |s| <= max
    ensures forall k :: 0 <= k < |r| ==> r[k].path == path
    ensures forall k :: 0 <= k < |r| ==> r[k].kind == TooSmall(min) || r[k].kind == TooBig(max)
  {
    (if |s| < min then [Issue(path, TooSmall(min))] else [])
    + (if |s| > max then [Issue(path, TooBig(max))] else [])
  }

  predicate IsInteger(x: real) {
    x == x.Floor as real
  }

  /** A `z.number().int().min(min)` check on `x`. */
  function IntegerIssues(path: string, x: real, min: int): (r: seq<Issue>)
    ensures r == [] <==> IsInteger(x) && x >= min as real
    ensures forall k :: 0 <= k < |r| ==> r[k].path == path
  {
    (if !IsInteger(x) then [Issue(path, NotInteger)] else [])
    + (if x < min as real then [Issue(path, TooSmall(min))] else [])
  }

  // ---------------------------------------------------------------------------
  // SoapSchema
  // ---------------------------------------------------------------------------

  const SOAP_SECTION_MAX: nat := 10000

  /** Every section holds 1..10000 characters, counted before any trimming. */
  predicate SoapValid(soap: SoapNote) {
    && 1 <= |soap.subjective| <= SOAP_SECTION_MAX
    && 1 <= |soap.objective| <= SOAP_SECTION_MAX
    && 1 <= |soap.assessment| <= SOAP_SECTION_MAX
    && 1 <= |soap.plan| <= SOAP_SECTION_MAX
  }

  function SoapIssues(prefix: string, soap: SoapNote): (r: seq<Issue>)
    ensures r == [] <==> SoapValid(soap)
  {
    LengthIssues(prefix + "subjective", soap.subjective, 1, SOAP_SECTION_MAX)
    + LengthIssues(prefix + "objective", soap.objective, 1, SOAP_SECTION_MAX)
    + LengthIssues(prefix + "assessment", soap.assessment, 1, SOAP_SECTION_MAX)
    + LengthIssues(prefix + "plan", soap.plan, 1, SOAP_SECTION_MAX)
  }

  /** `SoapSchema.safeParse` (and `validateSoapNote`). */
  function ParseSoap(soap: SoapNote): (r: Result<SoapNote, seq<Issue>>)
    ensures r.Success? <==> SoapValid(soap)
    ensures r.Success? ==> r.value == soap
    ensures r.Failure? ==> r.error != []
    ensures r.Failure? && |soap.subjective| == 0 ==> r.error[0] == Issue("subjective", TooSmall(1))
  {
    var issues := SoapIssues("", soap);
    if issues == [] then Success(soap) else Failure(issues)
  }

  /** A section of a single space is accepted: the schema never trims. */
  lemma SoapOfSpacesIsValid()
    ensures ParseSoap(SoapNote(" ", " ", " ", " ")).Success?
  {
  }

  /** The first issue is always on the first section that is out of range. */
  lemma SoapFirstIssue(soap: SoapNote)
    requires !SoapValid(soap)
    ensures ParseSoap(soap).error[0].path ==
      if !(1 <= |soap.subjective| <= SOAP_SECTION_MAX) then "subjective"
      else if !(1 <= |soap.objective| <= SOAP_SECTION_MAX) then "objective"
      else if !(1 <= |soap.assessment| <= SOAP_SECTION_MAX) then "assessment"
      else "plan"
  {
    var a := LengthIssues("subjective", soap.subjective, 1, SOAP_SECTION_MAX);
    var b := LengthIssues("objective", soap.objective, 1, SOAP_SECTION_MAX);
    var c := LengthIssues("assessment", soap.assessment, 1, SOAP_SECTION_MAX);
    var d := LengthIssues("plan", soap.plan, 1, SOAP_SECTION_MAX);
    assert "" + "subjective" == "subjective" && "" + "objective" == "objective";
    assert "" + "assessment" == "assessment" && "" + "plan" == "plan";
    assert SoapIssues("", soap) == a + b + c + d;
    if a == [] {
      assert a + b + c + d == b + c + d;
      if b == [] {
        assert b + c + d == c + d;
        if c == [] {
          assert c + d == d;
        }
      }
    }
  }

  // ---------------------------------------------------------------------------
  // PatientSchema
  // ---------------------------------------------------------------------------

  const PATIENT_NAME_MAX: nat := 100

  datatype PatientInput = PatientInput(firstName: string, lastName: string)

  /** 1..100 characters, at least one of them not white space. */
  predicate PatientNameValid(name: string) {
    1 <= |name| <= PATIENT_NAME_MAX && !AllSpace(name)
  }

  function NameIssues(path: string, name: string): (r: seq<Issue>)
    ensures r == [] <==> PatientNameValid(name)
  {
    LengthIssues(path, name, 1, PATIENT_NAME_MAX)
    + (if AllSpace(name) then [Issue(path, InvalidString)] else [])
  }

  /** `PatientSchema.safeParse` (and `validatePatient`). */
  function ParsePatient(p: PatientInput): (r: Result<PatientInput, seq<Issue>>)
    ensures r.Success? <==> PatientNameValid(p.firstName) && PatientNameValid(p.lastName)
    ensures r.Success? ==> r.value == p
    ensures r.Failure? ==> r.error != []
  {
    var issues := NameIssues("first_name", p.firstName) + NameIssues("last_name", p.lastName);
    if issues == [] then Success(p) else Failure(issues)
  }

  /** The pattern check is the same as asking that the trimmed name be non-empty. */
  lemma PatientNameValidIffTrimmed(name: string)
    ensures PatientNameValid(name) <==> |name| <= PATIENT_NAME_MAX && Trim(name) != ""
  {
    TrimEmptyIffAllSpace(name);
  }

  // ---------------------------------------------------------------------------
  // VisitStatusSchema, LanguagePrefSchema, VisitSchema
  // ---------------------------------------------------------------------------

  const VISIT_STATUS_NAMES: seq<string> := ["draft", "recording", "processing", "completed", "failed"]

  function StatusName(s: VisitStatus): string {
    match s
    case Draft => "draft"
    case Recording => "recording"
    case Processing => "processing"
    case Completed => "completed"
    case Failed => "failed"
  }

  /** `VisitStatusSchema.safeParse`: exactly the five names are admitted. */
  function ParseVisitStatus(name: string): (r: Option<VisitStatus>)
    ensures r.Some? <==> name in VISIT_STATUS_NAMES
  {
    if name == "draft" then Some(Draft)
    else if name == "recording" then Some(Recording)
    else if name == "processing" then Some(Processing)
    else if name == "completed" then Some(Completed)
    else if name == "failed" then Some(Failed)
    else None
  }

  lemma VisitStatusRoundTrip(s: VisitStatus, name: string)
    ensures ParseVisitStatus(StatusName(s)) == Some(s)
    ensures ParseVisitStatus(name) == Some(s) <==> StatusName(s) == name
  {
  }

  const LANGUAGE_PREF_NAMES: seq<string> := ["de", "fr", "auto"]

  function LanguageName(l: LanguagePref): string {
    match l
    case De => "de"
    case Fr => "fr"
    case Auto => "auto"
  }

  function ParseLanguagePref(name: string): (r: Option<LanguagePref>)
    ensures r.Some? <==> name in LANGUAGE_PREF_NAMES
  {
    if name == "de" then Some(De)
    else if name == "fr" then Some(Fr)
    else if name == "auto" then Some(Auto)
    else None
  }

  lemma LanguagePrefRoundTrip(l: LanguagePref, name: string)
    ensures ParseLanguagePref(LanguageName(l)) == Some(l)
    ensures ParseLanguagePref(name) == Some(l) <==> LanguageName(l) == name
  {
  }

  predicate IsHexDigit(c: char) {
    ('0' <= c <= '9') || ('a' <= c <= 'f') || ('A' <= c <= 'F')
  }

  predicate IsDashPosition(i: int) {
    i == 8 || i == 13 || i == 18 || i == 23
  }

  /** The `uuid` string check: five groups of 8, 4, 4, 4 and 12 hexadecimal digits joined by dashes. */
  predicate IsUuid(s: string) {
    && |s| == 36
    && forall i :: 0 <= i < |s| ==> if IsDashPosition(i) then s[i] == '-' else IsHexDigit(s[i])
  }

  function UuidIssues(path: string, s: string): (r: seq<Issue>)
    ensures r == [] <==> IsUuid(s)
  {
    if IsUuid(s) then [] else [Issue(path, InvalidString)]
  }

  /** Form data for a visit; an absent key is `None`. */
  datatype VisitInput = VisitInput(patientId: string, languagePref: Option<string>, status: Option<string>)

  datatype VisitData = VisitData(patientId: string, languagePref: LanguagePref, status: VisitStatus)

  function EnumIssues<T>(path: string, parsed: Option<T>): seq<Issue> {
    if parsed.None? then [Issue(path, InvalidEnumValue)] else []
  }

  predicate VisitInputValid(v: VisitInput) {
    && IsUuid(v.patientId)
    && (v.languagePref.Some? ==> v.languagePref.value in LANGUAGE_PREF_NAMES)
    && (v.status.Some? ==> v.status.value in VISIT_STATUS_NAMES)
  }

  /** `VisitSchema.safeParse`: language defaults to "de" and status to "draft". */
  function ParseVisit(v: VisitInput): (r: Result<VisitData, seq<Issue>>)
    ensures r.Success? <==> VisitInputValid(v)
    ensures r.Failure? ==> r.error != []
    ensures r.Success? ==> r.value.patientId == v.patientId
    ensures r.Success? ==> r.value.languagePref == if v.languagePref.None? then De else ParseLanguagePref(v.languagePref.value).value
    ensures r.Success? ==> r.value.status == if v.status.None? then Draft else ParseVisitStatus(v.status.value).value
  {
    var lang := if v.languagePref.None? then Some(De) else ParseLanguagePref(v.languagePref.value);
    var status := if v.status.None? then Some(Draft) else ParseVisitStatus(v.status.value);
    var issues := UuidIssues("patient_id", v.patientId)
      + EnumIssues("language_pref", lang)
      + EnumIssues("status", status);
    if issues == [] then Success(VisitData(v.patientId, lang.value, status.value)) else Failure(issues)
  }

  // ---------------------------------------------------------------------------
  // TranscriptSchema
  // ---------------------------------------------------------------------------

  const TRANSCRIPT_MIN: nat := 20
  const TRANSCRIPT_MAX: nat := 100000

  /** The checked keys of a transcript; `raw_json` accepts anything and is not represented. */
  datatype TranscriptInput = TranscriptInput(text: string, language: Option<string>, confidence: Option<real>)

  predicate TranscriptInputValid(t: TranscriptInput) {
    && TRANSCRIPT_MIN <= |t.text| <= TRANSCRIPT_MAX
    && (t.confidence.Some? ==> 0.0 <= t.confidence.value <= 1.0)
  }

  function ConfidenceIssues(c: Option<real>): (r: seq<Issue>)
    ensures r == [] <==> (c.Some? ==> 0.0 <= c.value <= 1.0)
  {
    if c.None? then []
    else
      (if c.value < 0.0 then [Issue("confidence", TooSmall(0))] else [])
      + (if c.value > 1.0 then [Issue("confidence", TooBig(1))] else [])
  }

  /** `TranscriptSchema.safeParse` (and `validateTranscript`). */
  function ParseTranscript(t: TranscriptInput): (r: Result<TranscriptInput, seq<Issue>>)
    ensures r.Success? <==> TranscriptInputValid(t)
    ensures r.Success? ==> r.value == t
    ensures r.Failure? ==> r.error != []
  {
    var issues := LengthIssues("text", t.text, TRANSCRIPT_MIN, TRANSCRIPT_MAX) + ConfidenceIssues(t.confidence);
    if issues == [] then Success(t) else Failure(issues)
  }

  // ---------------------------------------------------------------------------
  // UsageMetricsSchema
  // ---------------------------------------------------------------------------

  datatype UsageMetricsInput = UsageMetricsInput(
    visitId: string,
    sttSeconds: Option<real>, sttCostCents: Option<real>, sttModel: Option<string>,
    llmTokensIn: Option<real>, llmTokensOut: Option<real>, llmCostCents: Option<real>, llmModel: Option<string>)

  datatype UsageMetricsData = UsageMetricsData(
    visitId: string,
    sttSeconds: nat, sttCostCents: nat, sttModel: Option<string>,
    llmTokensIn: nat, llmTokensOut: nat, llmCostCents: nat, llmModel: Option<string>)

  /** An absent counter is fine; a present one must be a non-negative integer. */
  predicate CounterValid(x: Option<real>) {
    x.Some? ==> IsInteger(x.value) && x.value >= 0.0
  }

  function CounterIssues(path: string, x: Option<real>): (r: seq<Issue>)
    ensures r == [] <==> CounterValid(x)
  {
    if x.None? then [] else IntegerIssues(path, x.value, 0)
  }

  /** The value of a valid counter, 0 when absent. */
  function CounterValue(x: Option<real>): (n: nat)
    requires CounterValid(x)
    ensures x.None? ==> n == 0
    ensures x.Some? ==> n as real == x.value
  {
    if x.None? then 0 else x.value.Floor
  }

  /** `n` is what the schema makes of counter `x`: 0 when absent, the given value otherwise. */
  predicate CounterParsed(x: Option<real>, n: nat) {
    && (x.None? ==> n == 0)
    && (x.Some? ==> n as real == x.value)
  }

  predicate UsageMetricsInputValid(m: UsageMetricsInput) {
    && IsUuid(m.visitId)
    && CounterValid(m.sttSeconds) && CounterValid(m.sttCostCents)
    && CounterValid(m.llmTokensIn) && CounterValid(m.llmTokensOut) && CounterValid(m.llmCostCents)
  }

  /** `UsageMetricsSchema.safeParse` (and `validateUsageMetrics`): every counter defaults to 0. */
  function ParseUsageMetrics(m: UsageMetricsInput): (r: Result<UsageMetricsData, seq<Issue>>)
    ensures r.Success? <==> UsageMetricsInputValid(m)
    ensures r.Failure? ==> r.error != []
    ensures r.Success? ==> r.value.visitId == m.visitId && r.value.sttModel == m.sttModel && r.value.llmModel == m.llmModel
    ensures r.Success? ==> CounterParsed(m.sttSeconds, r.value.sttSeconds)
    ensures r.Success? ==> CounterParsed(m.sttCostCents, r.value.sttCostCents)
    ensures r.Success? ==> CounterParsed(m.llmTokensIn, r.value.llmTokensIn)
    ensures r.Success? ==> CounterParsed(m.llmTokensOut, r.value.llmTokensOut)
    ensures r.Success? ==> CounterParsed(m.llmCostCents, r.value.llmCostCents)
  {
    var issues := UuidIssues("visit_id", m.visitId)
      + CounterIssues("stt_seconds", m.sttSeconds)
      + CounterIssues("stt_cost_cents", m.sttCostCents)
      + CounterIssues("llm_tokens_in", m.llmTokensIn)
      + CounterIssues("llm_tokens_out", m.llmTokensOut)
      + CounterIssues("llm_cost_cents", m.llmCostCents);
    if issues != [] then Failure(issues)
    else Success(UsageMetricsData(
      m.visitId,
      CounterValue(m.sttSeconds), CounterValue(m.sttCostCents), m.sttModel,
      CounterValue(m.llmTokensIn), CounterValue(m.llmTokensOut), CounterValue(m.llmCostCents), m.llmModel))
  }

  // ---------------------------------------------------------------------------
  // NoteSchema
  // ---------------------------------------------------------------------------

  datatype NoteInput = NoteInput(visitId: string, soap: SoapNote, model: string, version: Option<real>, isFinal: Option<bool>)

  datatype NoteData = NoteData(visitId: string, soap: SoapNote, model: string, version: nat, isFinal: bool)

  predicate NoteInputValid(n: NoteInput) {
    && IsUuid(n.visitId)
    && SoapValid(n.soap)
    && |n.model| >= 1
    && (n.version.Some? ==> IsInteger(n.version.value) && n.version.value >= 1.0)
  }

  /** `NoteSchema.safeParse`: version defaults to 1 and is_final to false. */
  function ParseNote(n: NoteInput): (r: Result<NoteData, seq<Issue>>)
    ensures r.Success? <==> NoteInputValid(n)
    ensures r.Failure? ==> r.error != []
    ensures r.Success? ==> r.value.version >= 1
    ensures r.Success? ==> r.value.version == if n.version.None? then 1 else n.version.value.Floor
    ensures r.Success? ==> r.value.isFinal == n.isFinal.GetOr(false)
    ensures r.Success? ==> r.value.soap == n.soap && r.value.model == n.model && r.value.visitId == n.visitId
  {
    var versionIssues := if n.version.None? then [] else IntegerIssues("version", n.version.value, 1);
    var modelIssues := if |n.model| < 1 then [Issue("model", TooSmall(1))] else [];
    var issues := UuidIssues("visit_id", n.visitId) + SoapIssues("soap.", n.soap) + modelIssues + versionIssues;
    if issues != [] then Failure(issues)
    else
      var version := if n.version.None? then 1 else n.version.value.Floor;
      Success(NoteData(n.visitId, n.soap, n.model, version, n.isFinal.GetOr(false)))
  }

  // ---------------------------------------------------------------------------
  // Deepgram result messages
  // ---------------------------------------------------------------------------

  datatype Alternative = Alternative(transcript: string, confidence: Option<real>)

  /** A streamed message; the shape of `channel.alternatives` is carried by the type. */
  datatype DeepgramMessage = DeepgramMessage(
    msgType: string, alternatives: seq<Alternative>, isFinal: bool, speechFinal: Option<bool>)

  /** `DeepgramPartialSchema`: the type tag is "Results"; `is_final` may be either boolean. */
  function ParseDeepgramPartial(m: DeepgramMessage): (r: Result<DeepgramMessage, seq<Issue>>)
    ensures r.Success? <==> m.msgType == "Results"
    ensures r.Success? ==> r.value == m
  {
    if m.msgType == "Results" then Success(m) else Failure([Issue("type", InvalidLiteral)])
  }

  /** `DeepgramFinalSchema`: the type tag is "Results" and `is_final` is the literal true. */
  function ParseDeepgramFinal(m: DeepgramMessage): (r: Result<DeepgramMessage, seq<Issue>>)
    ensures r.Success? <==> m.msgType == "Results" && m.isFinal
    ensures r.Success? ==> r.value == m
  {
    var issues := (if m.msgType != "Results" then [Issue("type", InvalidLiteral)] else [])
      + (if !m.isFinal then [Issue("is_final", InvalidLiteral)] else []);
    if issues == [] then Success(m) else Failure(issues)
  }

  /** Every final message is also a partial one, and a partial one is final exactly when it says so. */
  lemma DeepgramFinalIsPartial(m: DeepgramMessage)
    ensures ParseDeepgramFinal(m).Success? <==> ParseDeepgramPartial(m).Success? && m.isFinal
  {
  }
}
