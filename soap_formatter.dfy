/**
 * Rendering and inspection of a SOAP note: the copy/paste text with section
 * headers and separators, the Markdown export, the metadata header, the
 * per-section lengths, the completeness check and the preview truncation.
 */
module SoapFormatter {
  import opened Wrappers
  import opened JsText
  import opened Schemas
  import TranscriptUtils
  import Prompts

  /** The four section titles in the order subjective, objective, assessment, plan. */
  datatype SectionNames = SectionNames(subjective: string, objective: string, assessment: string, plan: string)

  // ---------------------------------------------------------------------------
  // formatSoapForCopy
  // ---------------------------------------------------------------------------

  /** The options object; an absent field takes its default (headers on, separators on, German). */
  datatype CopyOptions = CopyOptions(
    includeHeaders: Option<bool>,
    includeSeparators: Option<bool>,
    language: Option<LanguagePref>)

  const DEFAULT_COPY_OPTIONS: CopyOptions := CopyOptions(None, None, None)

  const RULE_WIDTH: nat := 60

  /**
   * The copy headers. Only German gets the German titles; every other
   * language value gets the French ones.
   */
  function CopyHeaders(language: LanguagePref): (h: SectionNames)
    ensures language == De <==> h.subjective == "SUBJEKTIV"
    ensures h.plan == "PLAN"
  {
    if language == De then SectionNames("SUBJEKTIV", "OBJEKTIV", "ASSESSMENT", "PLAN")
    else SectionNames("SUBJECTIF", "OBJECTIF", "ÉVALUATION", "PLAN")
  }

  /** The separator element pushed between two sections. */
  function Separator(includeSeparators: bool): (sep: string)
    ensures includeSeparators ==> |sep| == RULE_WIDTH + 2
    ensures !includeSeparators ==> sep == "\n"
  {
    if includeSeparators then "\n" + Repeat('─', RULE_WIDTH) + "\n" else "\n"
  }

  /** What stands between two sections once the elements are joined by newlines. */
  function Gap(includeSeparators: bool): string {
    "\n" + Separator(includeSeparators) + "\n"
  }

  /** A titled section: its header line followed by its text. */
  function Titled(header: string, body: string): string {
    header + ":\n" + body
  }

  /**
   * The copy text before trimming, written as one concatenation: the four
   * sections in the order S, O, A, P, each under its header when headers are
   * on, with a gap between consecutive sections.
   */
  function CopyLayout(soap: SoapNote, includeHeaders: bool, includeSeparators: bool, language: LanguagePref): string {
    var h, g := CopyHeaders(language), Gap(includeSeparators);
    if includeHeaders then
      Titled(h.subjective, soap.subjective) + g + Titled(h.objective, soap.objective) + g
      + Titled(h.assessment, soap.assessment) + g + Titled(h.plan, soap.plan)
    else
      soap.subjective + g + soap.objective + g + soap.assessment + g + soap.plan
  }

  /** The copy text: the layout with the defaults applied, trimmed. */
  function CopyText(soap: SoapNote, options: CopyOptions): string {
    Trim(CopyLayout(soap, options.includeHeaders.GetOr(true), options.includeSeparators.GetOr(true),
                    options.language.GetOr(De)))
  }

  /** The titled layout regrouped as the newline-joined elements. */
  lemma TitledRegroup(hs: string, s: string, ho: string, o: string, ha: string, a: string,
                      hp: string, p: string, sep: string)
    ensures ((((((((((hs + ":") + "\n" + s) + "\n" + sep) + "\n" + (ho + ":")) + "\n" + o) + "\n" + sep)
      + "\n" + (ha + ":")) + "\n" + a) + "\n" + sep) + "\n" + (hp + ":")) + "\n" + p
      == Titled(hs, s) + ("\n" + sep + "\n") + Titled(ho, o) + ("\n" + sep + "\n")
      + Titled(ha, a) + ("\n" + sep + "\n") + Titled(hp, p)
  {
  }

  /** The plain layout regrouped as the newline-joined elements. */
  lemma PlainRegroup(s: string, o: string, a: string, p: string, sep: string)
    ensures (((((s + "\n" + sep) + "\n" + o) + "\n" + sep) + "\n" + a) + "\n" + sep) + "\n" + p
      == s + ("\n" + sep + "\n") + o + ("\n" + sep + "\n") + a + ("\n" + sep + "\n") + p
  {
  }

  /** Pushes the header, section and separator elements one by one and joins them with newlines. */
  method FormatSoapForCopy(soap: SoapNote, options: CopyOptions) returns (text: string)
    ensures text == CopyText(soap, options)
  {
    var includeHeaders := options.includeHeaders.GetOr(true);
    var includeSeparators := options.includeSeparators.GetOr(true);
    var language := options.language.GetOr(De);
    var separator := Separator(includeSeparators);
    var headers := CopyHeaders(language);
    var sections: seq<string>;
    // each push extends the joined text by a newline and the new element
    ghost var joined: string;
    if includeHeaders {
      sections := [headers.subjective + ":"];
      joined := headers.subjective + ":";
      JoinSnoc(sections, soap.subjective, "\n"); sections := sections + [soap.subjective];
      joined := joined + "\n" + soap.subjective;
      JoinSnoc(sections, separator, "\n"); sections := sections + [separator];
      joined := joined + "\n" + separator;
      JoinSnoc(sections, headers.objective + ":", "\n"); sections := sections + [headers.objective + ":"];
      joined := joined + "\n" + (headers.objective + ":");
      JoinSnoc(sections, soap.objective, "\n"); sections := sections + [soap.objective];
      joined := joined + "\n" + soap.objective;
      JoinSnoc(sections, separator, "\n"); sections := sections + [separator];
      joined := joined + "\n" + separator;
      JoinSnoc(sections, headers.assessment + ":", "\n"); sections := sections + [headers.assessment + ":"];
      joined := joined + "\n" + (headers.assessment + ":");
      JoinSnoc(sections, soap.assessment, "\n"); sections := sections + [soap.assessment];
      joined := joined + "\n" + soap.assessment;
      JoinSnoc(sections, separator, "\n"); sections := sections + [separator];
      joined := joined + "\n" + separator;
      JoinSnoc(sections, headers.plan + ":", "\n"); sections := sections + [headers.plan + ":"];
      joined := joined + "\n" + (headers.plan + ":");
      JoinSnoc(sections, soap.plan, "\n"); sections := sections + [soap.plan];
      joined := joined + "\n" + soap.plan;
      TitledRegroup(headers.subjective, soap.subjective, headers.objective, soap.objective,
                    headers.assessment, soap.assessment, headers.plan, soap.plan, separator);
    } else {
      sections := [soap.subjective];
      joined := soap.subjective;
      JoinSnoc(sections, separator, "\n"); sections := sections + [separator];
      joined := joined + "\n" + separator;
      JoinSnoc(sections, soap.objective, "\n"); sections := sections + [soap.objective];
      joined := joined + "\n" + soap.objective;
      JoinSnoc(sections, separator, "\n"); sections := sections + [separator];
      joined := joined + "\n" + separator;
      JoinSnoc(sections, soap.assessment, "\n"); sections := sections + [soap.assessment];
      joined := joined + "\n" + soap.assessment;
      JoinSnoc(sections, separator, "\n"); sections := sections + [separator];
      joined := joined + "\n" + separator;
      JoinSnoc(sections, soap.plan, "\n"); sections := sections + [soap.plan];
      joined := joined + "\n" + soap.plan;
      PlainRegroup(soap.subjective, soap.objective, soap.assessment, soap.plan, separator);
    }
    assert joined == Join(sections, "\n");
    text := Trim(Join(sections, "\n"));
  }

  /** Joined by newlines, the gap is two newlines, sixty box-drawing rules and two newlines, or three newlines. */
  lemma SeparatorShape(includeSeparators: bool)
    ensures Gap(includeSeparators) ==
      if includeSeparators then "\n\n" + Repeat('─', RULE_WIDTH) + "\n\n" else "\n\n\n"
  {
  }

  /** The titled layout starts with the first header line and ends with the plan. */
  lemma TitledEnds(hs: string, s: string, ho: string, o: string, ha: string, a: string,
                   hp: string, p: string, g: string)
    ensures Titled(hs, s) + g + Titled(ho, o) + g + Titled(ha, a) + g + Titled(hp, p)
      == (hs + ":") + ("\n" + s + g + Titled(ho, o) + g + Titled(ha, a) + g + Titled(hp, p))
    ensures Titled(hs, s) + g + Titled(ho, o) + g + Titled(ha, a) + g + Titled(hp, p)
      == (Titled(hs, s) + g + Titled(ho, o) + g + Titled(ha, a) + g + hp + ":\n") + p
  {
  }

  /** With headers on, the copy text opens with the subjective header and its colon. */
  lemma CopyStartsWithSubjectiveHeader(soap: SoapNote, options: CopyOptions)
    requires options.includeHeaders.GetOr(true)
    ensures var h := CopyHeaders(options.language.GetOr(De)).subjective + ":";
      |CopyText(soap, options)| >= |h| && CopyText(soap, options)[..|h|] == h
  {
    var h, g := CopyHeaders(options.language.GetOr(De)), Gap(options.includeSeparators.GetOr(true));
    TitledEnds(h.subjective, soap.subjective, h.objective, soap.objective,
               h.assessment, soap.assessment, h.plan, soap.plan, g);
    var head := h.subjective + ":";
    assert head[0] == 'S' && head[|head| - 1] == ':';
    TrimKeepsHead(head, "\n" + soap.subjective + g + Titled(h.objective, soap.objective) + g
                        + Titled(h.assessment, soap.assessment) + g + Titled(h.plan, soap.plan));
  }

  /**
   * When the plan does not end in white space, trimming removes nothing from
   * the titled layout: the copy text is the layout itself, ending with the plan.
   */
  lemma CopyIsLayoutWhenPlanEndsInText(soap: SoapNote, options: CopyOptions)
    requires options.includeHeaders.GetOr(true)
    requires soap.plan != [] && !IsSpace(soap.plan[|soap.plan| - 1])
    ensures CopyText(soap, options) ==
      CopyLayout(soap, true, options.includeSeparators.GetOr(true), options.language.GetOr(De))
    ensures |CopyText(soap, options)| >= |soap.plan|
    ensures CopyText(soap, options)[|CopyText(soap, options)| - |soap.plan|..] == soap.plan
  {
    var h, g := CopyHeaders(options.language.GetOr(De)), Gap(options.includeSeparators.GetOr(true));
    var layout := CopyLayout(soap, true, options.includeSeparators.GetOr(true), options.language.GetOr(De));
    TitledEnds(h.subjective, soap.subjective, h.objective, soap.objective,
               h.assessment, soap.assessment, h.plan, soap.plan, g);
    var head := h.subjective + ":";
    var front := Titled(h.subjective, soap.subjective) + g + Titled(h.objective, soap.objective) + g
                 + Titled(h.assessment, soap.assessment) + g + h.plan + ":\n";
    assert head[0] == 'S';
    assert layout == head + ("\n" + soap.subjective + g + Titled(h.objective, soap.objective) + g
                             + Titled(h.assessment, soap.assessment) + g + Titled(h.plan, soap.plan));
    assert layout[0] == 'S';
    assert layout == front + soap.plan;
    assert layout[|layout| - 1] == soap.plan[|soap.plan| - 1];
    TrimOfTrimmed(layout);
    assert layout[|layout| - |soap.plan|..] == soap.plan;
  }

  // ---------------------------------------------------------------------------
  // formatSoapAsMarkdown
  // ---------------------------------------------------------------------------

  function MarkdownHeaders(language: LanguagePref): (h: SectionNames)
    ensures language == De <==> h.subjective == "Subjektiv"
    ensures h.plan == "Plan"
  {
    if language == De then SectionNames("Subjektiv", "Objektiv", "Assessment", "Plan")
    else SectionNames("Subjectif", "Objectif", "Évaluation", "Plan")
  }

  /** The template: a "## " heading, a blank line, the section, a blank line, four times; one final newline. */
  function FormatSoapAsMarkdown(soap: SoapNote, language: Option<LanguagePref>): string {
    var h := MarkdownHeaders(language.GetOr(De));
    "## " + h.subjective + "\n\n" + soap.subjective + "\n\n"
    + "## " + h.objective + "\n\n" + soap.objective + "\n\n"
    + "## " + h.assessment + "\n\n" + soap.assessment + "\n\n"
    + "## " + h.plan + "\n\n" + soap.plan + "\n"
  }

  /** One Markdown section: its heading line, a blank line, its text and a line end. */
  function MarkdownSection(heading: string, body: string): string {
    "## " + heading + "\n\n" + body + "\n"
  }

  /** The Markdown export is the four headed sections in the order S, O, A, P, joined by newlines. */
  lemma MarkdownIsHeadedSections(soap: SoapNote, language: Option<LanguagePref>)
    ensures var h := MarkdownHeaders(language.GetOr(De));
      FormatSoapAsMarkdown(soap, language) == Join([
        MarkdownSection(h.subjective, soap.subjective), MarkdownSection(h.objective, soap.objective),
        MarkdownSection(h.assessment, soap.assessment), MarkdownSection(h.plan, soap.plan)], "\n")
  {
    var h := MarkdownHeaders(language.GetOr(De));
    MarkdownRegroup(h.subjective, soap.subjective, h.objective, soap.objective,
                    h.assessment, soap.assessment, h.plan, soap.plan);
  }

  lemma MarkdownRegroup(hs: string, s: string, ho: string, o: string, ha: string, a: string, hp: string, p: string)
    ensures "## " + hs + "\n\n" + s + "\n\n" + "## " + ho + "\n\n" + o + "\n\n"
      + "## " + ha + "\n\n" + a + "\n\n" + "## " + hp + "\n\n" + p + "\n"
      == Join([MarkdownSection(hs, s), MarkdownSection(ho, o), MarkdownSection(ha, a), MarkdownSection(hp, p)], "\n")
  {
    var ms, mo, ma, mp := MarkdownSection(hs, s), MarkdownSection(ho, o), MarkdownSection(ha, a), MarkdownSection(hp, p);
    JoinSnoc([ms], mo, "\n");
    JoinSnoc([ms, mo], ma, "\n");
    JoinSnoc([ms, mo, ma], mp, "\n");
    assert [ms] + [mo] == [ms, mo] && [ms, mo] + [ma] == [ms, mo, ma] && [ms, mo, ma] + [mp] == [ms, mo, ma, mp];
    assert "\n\n" == "\n" + "\n";
    SectionsRegroup("## ", "\n", hs, s, ho, o, ha, a, hp, p);
  }

  lemma SectionsRegroup(pre: string, nl: string, hs: string, s: string, ho: string, o: string,
                        ha: string, a: string, hp: string, p: string)
    ensures pre + hs + (nl + nl) + s + (nl + nl) + pre + ho + (nl + nl) + o + (nl + nl)
      + pre + ha + (nl + nl) + a + (nl + nl) + pre + hp + (nl + nl) + p + nl
      == (pre + hs + (nl + nl) + s + nl) + nl + (pre + ho + (nl + nl) + o + nl) + nl
      + (pre + ha + (nl + nl) + a + nl) + nl + (pre + hp + (nl + nl) + p + nl)
  {
  }

  // ---------------------------------------------------------------------------
  // getSoapSectionLengths
  // ---------------------------------------------------------------------------

  datatype SectionLengths = SectionLengths(subjective: nat, objective: nat, assessment: nat, plan: nat, total: nat)

  function GetSoapSectionLengths(soap: SoapNote): (r: SectionLengths)
    ensures r.total == |soap.subjective + soap.objective + soap.assessment + soap.plan|
    ensures r.total == r.subjective + r.objective + r.assessment + r.plan
    ensures r.subjective == |soap.subjective| && r.objective == |soap.objective|
    ensures r.assessment == |soap.assessment| && r.plan == |soap.plan|
  {
    SectionLengths(|soap.subjective|, |soap.objective|, |soap.assessment|, |soap.plan|,
                   |soap.subjective| + |soap.objective| + |soap.assessment| + |soap.plan|)
  }

  /** A note the schema accepts totals between 4 and 40000 characters. */
  lemma SectionLengthsOfValidSoap(soap: SoapNote)
    requires SoapValid(soap)
    ensures 4 <= GetSoapSectionLengths(soap).total <= 4 * SOAP_SECTION_MAX
  {
  }

  /** In either language the Markdown export is 58 characters longer than the sections together. */
  lemma MarkdownLength(soap: SoapNote, language: Option<LanguagePref>)
    ensures |FormatSoapAsMarkdown(soap, language)| == GetSoapSectionLengths(soap).total + 58
  {
    var h := MarkdownHeaders(language.GetOr(De));
    assert |h.subjective| == 9 && |h.objective| == 8 && |h.assessment| == 10 && |h.plan| == 4;
  }

  // ---------------------------------------------------------------------------
  // validateSoapCompleteness
  // ---------------------------------------------------------------------------

  const SECTION_KEYS: seq<string> := ["subjective", "objective", "assessment", "plan"]

  /** The section stored under the key at position i of SECTION_KEYS. */
  function SectionAt(soap: SoapNote, i: nat): string
    requires i < 4
  {
    if i == 0 then soap.subjective else if i == 1 then soap.objective
    else if i == 2 then soap.assessment else soap.plan
  }

  /** Empty, white space only, or the German placeholder. */
  predicate SectionMissing(text: string) {
    !Truthy(text) || AllSpace(text) || text == "N/A"
  }

  /** The test as the source writes it (falsy, blank after `trim`, or "N/A") is SectionMissing. */
  lemma MissingTestIsSectionMissing(text: string)
    ensures (!Truthy(text) || Trim(text) == "" || text == "N/A") == SectionMissing(text)
  {
    TrimEmptyIffAllSpace(text);
  }

  /** The keys of the missing sections among the first n, in key order. */
  function MissingAmong(soap: SoapNote, n: nat): seq<string>
    requires n <= 4
  {
    KeysWhere(MissingFlags(soap), SECTION_KEYS, n)
  }

  /** Whether each section, in key order, is missing. */
  function MissingFlags(soap: SoapNote): (flags: seq<bool>)
    ensures |flags| == 4
  {
    [SectionMissing(soap.subjective), SectionMissing(soap.objective),
     SectionMissing(soap.assessment), SectionMissing(soap.plan)]
  }

  function MissingSections(soap: SoapNote): seq<string> {
    MissingAmong(soap, 4)
  }

  /** The step from n keys to n + 1, stated on the section itself. */
  lemma MissingAmongStep(soap: SoapNote, n: nat)
    requires n < 4
    ensures MissingAmong(soap, n + 1) ==
      MissingAmong(soap, n) + (if SectionMissing(SectionAt(soap, n)) then [SECTION_KEYS[n]] else [])
  {
    assert MissingFlags(soap)[n] == SectionMissing(SectionAt(soap, n));
  }

  datatype Completeness = Completeness(complete: bool, missingSections: seq<string>)

  /** The test each of the four checks applies: falsy, blank after `trim`, or "N/A". */
  method IsSectionMissing(text: string) returns (missing: bool)
    ensures missing == SectionMissing(text)
  {
    MissingTestIsSectionMissing(text);
    missing := !Truthy(text) || Trim(text) == "" || text == "N/A";
  }

  /** The four checks, each pushing its key when the section is missing. */
  method ValidateSoapCompleteness(soap: SoapNote) returns (r: Completeness)
    ensures r.missingSections == MissingSections(soap)
    ensures r.complete <==> r.missingSections == []
  {
    var missing: seq<string> := [];
    assert MissingAmong(soap, 0) == [];
    var subjectiveMissing := IsSectionMissing(soap.subjective);
    if subjectiveMissing {
      missing := missing + [SECTION_KEYS[0]];
    }
    MissingAmongStep(soap, 0);
    var objectiveMissing := IsSectionMissing(soap.objective);
    if objectiveMissing {
      missing := missing + [SECTION_KEYS[1]];
    }
    MissingAmongStep(soap, 1);
    var assessmentMissing := IsSectionMissing(soap.assessment);
    if assessmentMissing {
      missing := missing + [SECTION_KEYS[2]];
    }
    MissingAmongStep(soap, 2);
    var planMissing := IsSectionMissing(soap.plan);
    if planMissing {
      missing := missing + [SECTION_KEYS[3]];
    }
    MissingAmongStep(soap, 3);
    r := Completeness(|missing| == 0, missing);
  }

  /** The German placeholder counts as missing; the French one does not. */
  lemma PlaceholdersAndCompleteness()
    ensures SectionMissing(Prompts.PLACEHOLDER_DE)
    ensures !SectionMissing(Prompts.PLACEHOLDER_FR)
  {
    assert !IsSpace(Prompts.PLACEHOLDER_FR[0]);
  }

  /** The four keys differ (already in their first letter). */
  lemma KeysDistinct()
    ensures forall i, j :: 0 <= i < j < 4 ==> SECTION_KEYS[i] != SECTION_KEYS[j]
  {
    assert SECTION_KEYS[0][0] == 's' && SECTION_KEYS[1][0] == 'o';
    assert SECTION_KEYS[2][0] == 'a' && SECTION_KEYS[3][0] == 'p';
  }

  /**
   * A key is listed exactly when its section is missing, and the list keeps
   * the order S, O, A, P: it is SECTION_KEYS at strictly increasing positions.
   */
  lemma MissingSectionsFacts(soap: SoapNote) returns (ranks: seq<nat>)
    ensures forall i :: 0 <= i < 4 ==> (SECTION_KEYS[i] in MissingSections(soap) <==> SectionMissing(SectionAt(soap, i)))
    ensures |ranks| == |MissingSections(soap)|
    ensures forall j :: 0 <= j < |ranks| ==> ranks[j] < 4 && MissingSections(soap)[j] == SECTION_KEYS[ranks[j]]
    ensures forall j, k :: 0 <= j < k < |ranks| ==> ranks[j] < ranks[k]
  {
    ranks := KeysWhereRanks(MissingFlags(soap), SECTION_KEYS, 4);
    KeysDistinct();
    KeysWhereMembers(MissingFlags(soap), SECTION_KEYS, 4);
    forall i | 0 <= i < 4 ensures MissingFlags(soap)[i] == SectionMissing(SectionAt(soap, i)) {
    }
  }

  /** The note schema and the completeness check are independent: a valid note can be incomplete. */
  lemma ValidButIncomplete()
    ensures var soap := SoapNote("N/A", "N/A", "N/A", "N/A");
      SoapValid(soap) && MissingSections(soap) == SECTION_KEYS
  {
  }

  // ---------------------------------------------------------------------------
  // truncateSoap
  // ---------------------------------------------------------------------------

  const DEFAULT_SOAP_PREVIEW_LENGTH: int := 200

  /** The per-section truncation: no trimming, unlike the transcript preview. */
  function TruncateSection(text: string, maxLength: int): (r: string)
    ensures |text| <= maxLength ==> r == text
    ensures |text| > maxLength ==> 3 <= |r| <= |text| + 3 && r[|r| - 3..] == "..." && r[..|r| - 3] == text[..|r| - 3]
    ensures |text| > maxLength && maxLength >= 3 ==> |r| == maxLength
    ensures |text| > maxLength && maxLength < 3 ==> r == "..."
  {
    if |text| > maxLength then
      var kept := TranscriptUtils.Prefix(text, maxLength - 3);
      assert (kept + "...")[..|kept|] == kept;
      kept + "..."
    else text
  }

  /** `r` is section `text` cut to at most `m` characters, or the whole section when it fits. */
  predicate SectionPreview(text: string, m: int, r: string) {
    && (|text| <= m ==> r == text)
    && (|text| > m && m >= 3 ==> |r| == m && r[..m - 3] == text[..m - 3] && r[m - 3..] == "...")
    && (|text| > m && m < 3 ==> r == "...")
  }

  function TruncateSoap(soap: SoapNote, maxLength: Option<int>): (r: SoapNote)
    ensures var m := maxLength.GetOr(DEFAULT_SOAP_PREVIEW_LENGTH);
      && SectionPreview(soap.subjective, m, r.subjective) && SectionPreview(soap.objective, m, r.objective)
      && SectionPreview(soap.assessment, m, r.assessment) && SectionPreview(soap.plan, m, r.plan)
  {
    var m := maxLength.GetOr(DEFAULT_SOAP_PREVIEW_LENGTH);
    SoapNote(TruncateSection(soap.subjective, m), TruncateSection(soap.objective, m),
             TruncateSection(soap.assessment, m), TruncateSection(soap.plan, m))
  }

  /** Truncating a truncated section changes nothing, whatever the bound. */
  lemma TruncateSectionIdempotent(text: string, maxLength: int)
    ensures TruncateSection(TruncateSection(text, maxLength), maxLength) == TruncateSection(text, maxLength)
  {
  }

  /** Preview truncation keeps a schema-valid note valid and is idempotent. */
  lemma TruncateSoapFacts(soap: SoapNote, maxLength: Option<int>)
    ensures SoapValid(soap) ==> SoapValid(TruncateSoap(soap, maxLength))
    ensures TruncateSoap(TruncateSoap(soap, maxLength), maxLength) == TruncateSoap(soap, maxLength)
    ensures var m := maxLength.GetOr(DEFAULT_SOAP_PREVIEW_LENGTH);
      m >= 3 ==> GetSoapSectionLengths(TruncateSoap(soap, maxLength)).total <= 4 * m
  {
    var m := maxLength.GetOr(DEFAULT_SOAP_PREVIEW_LENGTH);
    TruncateSectionIdempotent(soap.subjective, m);
    TruncateSectionIdempotent(soap.objective, m);
    TruncateSectionIdempotent(soap.assessment, m);
    TruncateSectionIdempotent(soap.plan, m);
  }

  // ---------------------------------------------------------------------------
  // formatSoapWithMetadata
  // ---------------------------------------------------------------------------

  /**
   * The metadata. `generatedAt` stands for the creation time already rendered
   * by the German locale formatter, which is not part of this model.
   */
  datatype NoteMetadata = NoteMetadata(
    model: string,
    version: int,
    generatedAt: string,
    patientName: Option<string>,
    visitDate: Option<string>)

  const HEADER_RULE: string := Repeat('─', 61)

  /** Decimal digits of a natural number, as template interpolation prints it. */
  function DecimalDigits(n: nat): (r: string)
    ensures |r| >= 1
    ensures forall i :: 0 <= i < |r| ==> '0' <= r[i] <= '9'
    ensures |r| > 1 ==> r[0] != '0'
    ensures DecimalValue(r) == n
  {
    if n < 10 then [('0' as int + n) as char]
    else
      var r := DecimalDigits(n / 10) + [('0' as int + n % 10) as char];
      assert r[..|r| - 1] == DecimalDigits(n / 10);
      r
  }

  /** The number a string of decimal digits denotes, most significant digit first. */
  function DecimalValue(s: string): int {
    if s == [] then 0 else 10 * DecimalValue(s[..|s| - 1]) + (s[|s| - 1] as int - '0' as int)
  }

  function DecimalString(n: int): string {
    if n < 0 then "-" + DecimalDigits(-n) else DecimalDigits(n)
  }

  /** A line that is only there when its value is truthy. */
  function OptionalLine(prefix: string, value: Option<string>): Option<string> {
    if value.Some? && Truthy(value.value) then Some(prefix + value.value) else None
  }

  /** The header array before filtering: `None` stands for `null`. */
  function RawMetadataLines(meta: NoteMetadata): seq<Option<string>> {
    [Some(HEADER_RULE), Some("EVA Note - SOAP Dokumentation"),
     OptionalLine("Patient: ", meta.patientName), OptionalLine("Datum: ", meta.visitDate),
     Some("Generiert: " + meta.generatedAt),
     Some("Modell: " + meta.model + " (v" + DecimalString(meta.version) + ")"),
     Some(HEADER_RULE), Some("")]
  }

  /** `filter(Boolean)`: drops the nulls and the empty strings. */
  function KeepTruthy(xs: seq<Option<string>>): (r: seq<string>)
    ensures forall i :: 0 <= i < |r| ==> Truthy(r[i])
    ensures |r| <= |xs|
  {
    if xs == [] then []
    else (if xs[0].Some? && Truthy(xs[0].value) then [xs[0].value] else []) + KeepTruthy(xs[1..])
  }

  /** The filter keeps exactly the strings present and non-empty among the entries. */
  lemma {:induction false} KeepTruthyMembers(xs: seq<Option<string>>)
    ensures forall x :: x in KeepTruthy(xs) <==> Some(x) in xs && Truthy(x)
  {
    if xs != [] {
      KeepTruthyMembers(xs[1..]);
      assert xs == [xs[0]] + xs[1..];
    }
  }

  function MetadataLines(meta: NoteMetadata): seq<string> {
    KeepTruthy(RawMetadataLines(meta))
  }

  function FormatSoapWithMetadata(soap: SoapNote, meta: NoteMetadata): string {
    Join(MetadataLines(meta), "\n") + "\n" + CopyText(soap, CopyOptions(Some(true), Some(true), None))
  }

  lemma {:induction false} KeepTruthyAppend(a: seq<Option<string>>, b: seq<Option<string>>)
    ensures KeepTruthy(a + b) == KeepTruthy(a) + KeepTruthy(b)
  {
    if a == [] {
      assert a + b == b;
    } else {
      assert (a + b)[1..] == a[1..] + b;
      KeepTruthyAppend(a[1..], b);
    }
  }

  /** The filter on two entries keeps each that is a non-empty string. */
  lemma KeepTruthyPair(x: Option<string>, y: Option<string>)
    ensures KeepTruthy([x, y]) ==
      (if x.Some? && Truthy(x.value) then [x.value] else []) + (if y.Some? && Truthy(y.value) then [y.value] else [])
  {
    assert [x, y][1..] == [y];
    assert [y][1..] == [];
  }

  /** The filter on the header shape: the four fixed lines stay, the trailing "" goes. */
  lemma KeepTruthyHeader(rule: string, title: string, mid: seq<Option<string>>, gen: string, model: string)
    requires Truthy(rule) && Truthy(title) && Truthy(gen) && Truthy(model)
    ensures KeepTruthy([Some(rule), Some(title)] + mid + [Some(gen), Some(model)] + [Some(rule), Some("")]) ==
      [rule, title] + KeepTruthy(mid) + [gen, model, rule]
  {
    var front, back1, back2 := [Some(rule), Some(title)], [Some(gen), Some(model)], [Some(rule), Some("")];
    KeepTruthyPair(Some(rule), Some(title));
    KeepTruthyAppend(front, mid);
    KeepTruthyPair(Some(gen), Some(model));
    KeepTruthyAppend(front + mid, back1);
    KeepTruthyPair(Some(rule), Some(""));
    KeepTruthyAppend(front + mid + back1, back2);
  }

  /** The filtered header: the rule and the title, the present optional lines, then the three fixed lines. */
  lemma MetadataLinesParts(meta: NoteMetadata)
    ensures var raw := RawMetadataLines(meta);
      MetadataLines(meta) ==
        [HEADER_RULE, "EVA Note - SOAP Dokumentation"] + KeepTruthy(raw[2..4]) +
        ["Generiert: " + meta.generatedAt, "Modell: " + meta.model + " (v" + DecimalString(meta.version) + ")", HEADER_RULE]
  {
    var raw := RawMetadataLines(meta);
    var gen, model := "Generiert: " + meta.generatedAt, "Modell: " + meta.model + " (v" + DecimalString(meta.version) + ")";
    assert |HEADER_RULE| == 61;
    assert raw == [Some(HEADER_RULE), Some("EVA Note - SOAP Dokumentation")] + raw[2..4]
      + [Some(gen), Some(model)] + [Some(HEADER_RULE), Some("")];
    KeepTruthyHeader(HEADER_RULE, "EVA Note - SOAP Dokumentation", raw[2..4], gen, model);
  }

  /**
   * The header lines open and close with the rule (the trailing empty entry
   * is filtered away), and the third line is the patient line exactly when a
   * patient name is given.
   */
  lemma MetadataLinesShape(meta: NoteMetadata)
    ensures var lines := MetadataLines(meta);
      && 5 <= |lines| <= 7
      && lines[0] == HEADER_RULE && lines[|lines| - 1] == HEADER_RULE
      && ((meta.patientName.Some? && Truthy(meta.patientName.value)) <==> lines[2] == "Patient: " + meta.patientName.GetOr(""))
  {
    var raw := RawMetadataLines(meta);
    MetadataLinesParts(meta);
    var mid := raw[2..4];
    assert mid == [mid[0], mid[1]];
    KeepTruthyPair(mid[0], mid[1]);
    var lines := MetadataLines(meta);
    if mid[0].None? {
      assert lines[2][0] != 'P';
    }
  }

  /** A text framed by two rule lines around `mid`, followed by `copy`, shows both rules at its edges. */
  lemma FramedByRules(rule: string, mid: string, copy: string)
    ensures var out := rule + "\n" + mid + "\n" + rule + "\n" + copy;
      && out[..|rule| + 1] == rule + "\n"
      && out[|out| - |copy| - |rule| - 1..] == rule + "\n" + copy
  {
    var out := rule + "\n" + mid + "\n" + rule + "\n" + copy;
    assert out == (rule + "\n") + (mid + "\n" + rule + "\n" + copy);
    assert out == (rule + "\n" + mid + "\n") + (rule + "\n" + copy);
  }

  /** The joined header lines: the rule, the lines between, and the rule again. */
  lemma MetadataHeaderFrame(meta: NoteMetadata) returns (mid: string)
    ensures Join(MetadataLines(meta), "\n") == HEADER_RULE + "\n" + mid + "\n" + HEADER_RULE
  {
    var lines := MetadataLines(meta);
    MetadataLinesShape(meta);
    var n := |lines|;
    assert lines == lines[..n - 1] + [lines[n - 1]];
    JoinSnoc(lines[..n - 1], lines[n - 1], "\n");
    assert lines[..n - 1][1..] == lines[1..n - 1];
    mid := Join(lines[1..n - 1], "\n");
  }

  /**
   * The metadata text opens with the rule line, and its header block closes
   * with the rule line, followed by a newline and the copy text with headers
   * and separators.
   */
  lemma FormatSoapWithMetadataShape(soap: SoapNote, meta: NoteMetadata)
    ensures var out, copy := FormatSoapWithMetadata(soap, meta), CopyText(soap, CopyOptions(Some(true), Some(true), None));
      && |out| >= 2 * |HEADER_RULE| + 2 + |copy|
      && out[..|HEADER_RULE| + 1] == HEADER_RULE + "\n"
      && out[|out| - |copy| - |HEADER_RULE| - 1..] == HEADER_RULE + "\n" + copy
  {
    var mid := MetadataHeaderFrame(meta);
    FramedByRules(HEADER_RULE, mid, CopyText(soap, CopyOptions(Some(true), Some(true), None)));
  }
}
