# eva-note SOAP pipeline, modelled in Dafny

This project models the server-side core of eva-note, a tool that turns physiotherapy visit transcripts into SOAP notes (Subjective, Objective, Assessment, Plan). The model covers:

- the transcript utilities: cleaning, the 20..100000 length band, the 32-bit content hash used for idempotency, word count, truncation, display formatting;
- the input schemas, stated as predicates with parsers that report issues;
- the German and French prompt builder;
- the SOAP formatter: copy text, markdown, section lengths, completeness, truncation, the metadata block;
- the language-model configuration: the EU-region guard, the required environment variables, and the getters with their defaults;
- the SOAP server actions: generation with bounded retry, ownership, the idempotent short-circuit by transcript hash, note versions, the visit status sequence, manual edit, finalisation and regeneration;
- the visit and recording-status actions, with their timestamp rules;
- saving a streamed transcript.

How the pieces are modelled:

- The database is a class `Database.Store`. It holds sequences of profiles, patients, visits, transcripts, notes and usage-metric rows, plus a clock that issues row ids and creation times.
- The signed-in user is a parameter, `userId: Option<string>`.
- The language model is an oracle `generateObject(request, attempt)` supplied in `Collaborators`. That collaborator also holds the token estimators, JSON serialisation, `parseInt` and the environment.
- A database write whose error the source checks fails when its fault flag is set.
- Timestamps are the opaque parameter `now`.
- The sleeps between attempts are a ghost list of delays.

Files, in dependency order:

- `wrappers.dfy`: Option and Result.
- `js_text.dfy`: the JavaScript string operations the code relies on, such as `trim`, `join` and ASCII `toLowerCase`.
- `schemas.dfy`, `transcript_utils.dfy`, `prompts.dfy`, `soap_formatter.dfy`, `azure_openai.dfy`.
- `store.dfy`: the rows, the store class and the row queries.
- `soap_actions.dfy`, `visit_actions.dfy`, `transcription_actions.dfy`: the server actions.

Where the code and its documentation disagree, the model follows the code. Three examples:

- `regenerateSoapNote` can return the existing note instead of a new version; see Findings.
- The `started_at` branch of `updateVisitStatus` can never fire.
- The SOAP schema accepts sections made only of spaces.

## Model

| member | source | states |
|---|---|---|
| TranscriptUtils.RemoveFillerFrom | src/lib/transcript-utils.ts:44-47 | Removing one filler word, as a case-insensitive match between ASCII word boundaries, never lengthens the text. |
| TranscriptUtils.RemoveFiller | src/lib/transcript-utils.ts:45-46 | Removing every occurrence of one filler never lengthens the text. |
| TranscriptUtils.RemoveFillers | src/lib/transcript-utils.ts:17-29 | Removing the whole German filler list, one word after another, never lengthens the text. |
| TranscriptUtils.CollapseSpaces | src/lib/transcript-utils.ts:50 | Replacing each whitespace run with one space never lengthens the text; the first character is kept, or becomes a space if it was whitespace. |
| TranscriptUtils.CollapseSpacesShape | src/lib/transcript-utils.ts:50 | After collapsing, the only whitespace left is single plain spaces, never two in a row. |
| TranscriptUtils.CollapseSpacesKeepsText | src/lib/transcript-utils.ts:50 | Collapsing keeps every non-whitespace character, in order. |
| TranscriptUtils.RunOf | src/lib/transcript-utils.ts:56 | The length of the leading run of one character: every character in it matches, and the next one does not. |
| TranscriptUtils.RepeatMatch | src/lib/transcript-utils.ts:56 | A match of the repeated-punctuation pattern starts with `.`, `!` or `?`, ends with that same mark, is at least two characters long, and cannot be extended. |
| TranscriptUtils.CollapseRepeats | src/lib/transcript-utils.ts:56 | Collapsing repeated punctuation never lengthens the text and keeps its first and last characters. |
| TranscriptUtils.CollapseRepeatsShape | src/lib/transcript-utils.ts:56 | Collapsing repeated punctuation never creates a double space or a non-plain whitespace character. |
| TranscriptUtils.CleanTranscript | src/lib/transcript-utils.ts:36-59 | The cleaning steps run in the source's order and give `Clean(text)`; empty input gives "". |
| TranscriptUtils.Clean | src/lib/transcript-utils.ts:36-59 | Computes the cleaned text; its properties are stated by CleanTranscript (the steps and their order) and CleanShape (the shape of the result). |
| TranscriptUtils.CleanShape | src/lib/transcript-utils.ts:41-58 | Cleaned text has no whitespace at either end, no two whitespace characters in a row, only plain spaces, and is never longer than the input. |
| TranscriptUtils.ValidateTranscriptLength | src/lib/transcript-utils.ts:66-102 | Measures the trimmed length. Valid exactly for 20..100000; 0 reports empty, 1..19 too short, and more than 100000 too long, each with the length it measured. |
| TranscriptUtils.ValidateCleanedMeasuresLength | src/lib/transcript-utils.ts:66-72 | On cleaned text, the measured length is the text's own length, and validity is that length lying in the band. |
| TranscriptUtils.KeepWordsAndSpaces | src/lib/transcript-utils.ts:111 | Removing every character that is neither a word character nor whitespace leaves only word characters and whitespace, and never lengthens the text. |
| TranscriptUtils.KeepWordsAndSpacesConcat | src/lib/transcript-utils.ts:111 | The removal applies to each character on its own, so it distributes over concatenation. |
| TranscriptUtils.MeaningfulContentIgnoresPunctuation | src/lib/transcript-utils.ts:109-113 | Inserting a punctuation character anywhere never changes whether the text has meaningful content. |
| TranscriptUtils.MeaningfulContentBounds | src/lib/transcript-utils.ts:109-113 | Meaningful text is at least 20 characters long and contains a word character. |
| TranscriptUtils.KeptCharOccurs | src/lib/transcript-utils.ts:111 | Every character that survives the removal occurs in the original text. |
| TranscriptUtils.HasMeaningfulContent | src/lib/transcript-utils.ts:109-113 | The test itself; MeaningfulContentBounds and MeaningfulContentIgnoresPunctuation state what it implies and what it ignores. |
| TranscriptUtils.SplitOnSpaces | src/lib/transcript-utils.ts:123 | Splitting on whitespace runs always yields at least one piece. |
| TranscriptUtils.SplitCountsWordEnds | src/lib/transcript-utils.ts:123 | The number of non-empty pieces of the split is the number of words, counted as word ends in the text. |
| TranscriptUtils.WordEndsZeroIffAllSpace | src/lib/transcript-utils.ts:122 | A text has no words exactly when it is all whitespace. |
| TranscriptUtils.WordEndsTrim | src/lib/transcript-utils.ts:121 | Trimming never changes the number of words. |
| TranscriptUtils.EstimateWordCountCountsWords | src/lib/transcript-utils.ts:120-124 | The estimate is the number of whitespace-separated words, and it is 0 exactly for all-whitespace text. |
| TranscriptUtils.EstimateWordCount | src/lib/transcript-utils.ts:120-124 | Computes the estimate; EstimateWordCountCountsWords proves it is the number of words. |
| TranscriptUtils.Int32 | src/lib/transcript-utils.ts:137 | Wraps to a signed 32-bit value that is congruent to the input modulo 2^32. |
| TranscriptUtils.Int32Congruent | src/lib/transcript-utils.ts:136-137 | Inputs that differ by a multiple of 2^32 wrap to the same value. |
| TranscriptUtils.HashOf | src/lib/transcript-utils.ts:133-138 | The hash recurrence starts at 0, steps by wrap(31·h + code unit), and always stays a signed 32-bit value. |
| TranscriptUtils.ShiftSubtractStep | src/lib/transcript-utils.ts:136-137 | The source's `(h << 5) - h + c`, taken with 32-bit wrap at the shift and again at the end, equals wrap(31·h + c). |
| TranscriptUtils.HashCodeUnits | src/lib/transcript-utils.ts:133-138 | The loop over the code units computes `HashOf`. |
| TranscriptUtils.Digits36 | src/lib/transcript-utils.ts:139 | Base-36 digits of a natural number: never empty and never contain '-'. |
| TranscriptUtils.ParseDigits36RoundTrip | src/lib/transcript-utils.ts:139 | Reading the base-36 digits back gives the original number. |
| TranscriptUtils.Base36 | src/lib/transcript-utils.ts:139 | `toString(36)` of an integer is never empty. |
| TranscriptUtils.Base36Sign | src/lib/transcript-utils.ts:139 | The rendering starts with '-' exactly for negative numbers. |
| TranscriptUtils.Digits36Injective | src/lib/transcript-utils.ts:139 | Different natural numbers have different base-36 digits. |
| TranscriptUtils.Base36Injective | src/lib/transcript-utils.ts:139 | Two integers render the same in base 36 exactly when they are equal. |
| TranscriptUtils.HashTranscript | src/lib/transcript-utils.ts:131-140 | Hashes the cleaned text and renders the hash in base 36. |
| TranscriptUtils.TranscriptHashEquality | src/lib/transcript-utils.ts:131-140 | Two hash strings are equal exactly when the 32-bit hashes of the cleaned texts are equal. Texts that clean to the same string hash equally, and a text that cleans to "" hashes to "0". |
| TranscriptUtils.TranscriptHash | src/lib/transcript-utils.ts:131-140 | Computes the hash string; HashTranscript computes the same by the loop, and TranscriptHashEquality says when two hashes agree. |
| TranscriptUtils.NewlineRun | src/lib/transcript-utils.ts:151 | The length of the leading run of newlines. |
| TranscriptUtils.SqueezeNewlines | src/lib/transcript-utils.ts:151 | Squeezing newline runs keeps a first character that is not a newline. |
| TranscriptUtils.SqueezeNewlinesShape | src/lib/transcript-utils.ts:151 | After squeezing, no three newlines are in a row. |
| TranscriptUtils.BreakSentencesKeepsText | src/lib/transcript-utils.ts:150 | Breaking lines after sentence ends changes only whitespace. |
| TranscriptUtils.SqueezeNewlinesKeepsText | src/lib/transcript-utils.ts:151 | Squeezing newline runs changes only whitespace. |
| TranscriptUtils.FormatTranscriptForDisplayShape | src/lib/transcript-utils.ts:147-153 | Display text has no whitespace at either end and no three newlines in a row, and keeps every non-whitespace character in order. |
| TranscriptUtils.FormatTranscriptForDisplay | src/lib/transcript-utils.ts:147-153 | Computes the display text; FormatTranscriptForDisplayShape states its shape. |
| TranscriptUtils.Prefix | src/lib/transcript-utils.ts:166 | `substring(0, end)`: the prefix of length `end`, clamped to 0..length. |
| TranscriptUtils.TruncateTranscript | src/lib/transcript-utils.ts:161-167 | The limit defaults to 200 when left out. Text no longer than the limit comes back unchanged. Longer text becomes the trimmed prefix of limit − 3 characters plus "...", which is at most the limit long once the limit is at least 3. |
| Schemas.LengthIssues | src/lib/schemas.ts:8-23 | No issue exactly when the length lies within the bounds; each issue names the field and which bound it broke. |
| Schemas.IntegerIssues | src/lib/schemas.ts:105 | No issue exactly when the number is an integer at or above the minimum. |
| Schemas.SoapIssues | src/lib/schemas.ts:7-24 | No issue exactly when each of the four sections is 1..10000 characters long, counted raw and untrimmed. |
| Schemas.ParseSoap | src/lib/schemas.ts:148-154 | Succeeds exactly on a schema-valid SOAP, which it returns unchanged. A failure lists at least one issue, and an empty subjective is reported first. |
| Schemas.SoapOfSpacesIsValid | src/lib/schemas.ts:7-24 | Four sections of a single space pass the SOAP schema. |
| Schemas.SoapFirstIssue | src/lib/schemas.ts:7-24 | The first reported issue is about the first section, in S, O, A, P order, that fails. |
| Schemas.NameIssues | src/lib/schemas.ts:32-41 | No issue exactly when the name is 1..100 characters and not all whitespace. |
| Schemas.ParsePatient | src/lib/schemas.ts:31-42 | Succeeds exactly when both names are valid, and returns the input. |
| Schemas.PatientNameValidIffTrimmed | src/lib/schemas.ts:32-41 | A name is valid exactly when it is at most 100 characters and non-empty after trimming. |
| Schemas.ParseVisitStatus | src/lib/schemas.ts:49-55 | Accepts exactly the five status names. |
| Schemas.VisitStatusRoundTrip | src/lib/schemas.ts:49-55 | Parsing a status's name gives the status back, and only that name parses to it. |
| Schemas.ParseLanguagePref | src/lib/schemas.ts:57 | Accepts exactly "de", "fr" and "auto". |
| Schemas.LanguagePrefRoundTrip | src/lib/schemas.ts:57 | Parsing a language's name gives the language back, and only that name parses to it. |
| Schemas.UuidIssues | src/lib/schemas.ts:60 | No issue exactly when the text has the 8-4-4-4-12 hexadecimal UUID shape. |
| Schemas.ParseVisit | src/lib/schemas.ts:59-63 | Succeeds exactly on valid visit input. An absent language defaults to "de" and an absent status to "draft". |
| Schemas.ConfidenceIssues | src/lib/schemas.ts:76 | No issue exactly when the confidence is absent or lies in [0, 1]. |
| Schemas.ParseTranscript | src/lib/schemas.ts:70-78 | Succeeds exactly when the text is 20..100000 characters and the confidence is absent or in [0, 1]; it returns the input. |
| Schemas.CounterIssues | src/lib/schemas.ts:87-91 | No issue exactly when the counter is absent or a non-negative integer. |
| Schemas.CounterValue | src/lib/schemas.ts:87-91 | An absent counter defaults to 0; a present one keeps its value. |
| Schemas.ParseUsageMetrics | src/lib/schemas.ts:85-94 | Succeeds exactly on valid input; keeps the visit id and both model names; each of the five counters is 0 when absent and the given value when present. |
| Schemas.ParseNote | src/lib/schemas.ts:101-107 | Succeeds exactly on valid input. The version is at least 1 and defaults to 1, and the final flag defaults to false. |
| Schemas.ParseDeepgramPartial | src/lib/schemas.ts:114-125 | Accepts a "Results" message, final or not. |
| Schemas.ParseDeepgramFinal | src/lib/schemas.ts:127-139 | Accepts a "Results" message only when it is final. |
| Schemas.DeepgramFinalIsPartial | src/lib/schemas.ts:114-139 | The final schema accepts exactly the final messages the partial schema accepts. |
| Prompts.TemplateLanguage | src/lib/prompts.ts:120-124 | The French template is chosen exactly for "fr"; "de" and "auto" both get the German one. |
| Prompts.GetSoapSystemPrompt | src/lib/prompts.ts:120-124 | Returns the system text of the template TemplateLanguage chooses: French for "fr", German for "de" and "auto". Nothing is proved about the two texts. |
| Prompts.CreateSoapUserPromptDE | src/lib/prompts.ts:33-59 | Builds the German user prompt; RawTextInGermanPrompt, DetailDefaultsToDetailed and DetailLevelsDiffer state its properties. |
| Prompts.CreateSoapUserPromptFR | src/lib/prompts.ts:89-115 | Builds the French user prompt; RawTextInFrenchPrompt, DetailDefaultsToDetailed and DetailLevelsDiffer state its properties. |
| Prompts.CreateSoapUserPrompt | src/lib/prompts.ts:129-140 | Picks the builder by TemplateLanguage; FrenchExactlyForFr and RawTextBetweenDelimiters state the choice and the raw-text placement. |
| Prompts.UserPromptsDiffer | src/lib/prompts.ts:33-115 | The German and French user prompts for the same parameters differ. |
| Prompts.FrenchExactlyForFr | src/lib/prompts.ts:129-140 | The user prompt is the French one exactly for "fr", and the German one exactly otherwise. |
| Prompts.SplicedBetween | src/lib/prompts.ts:51-54 | Raw text spliced between two `"""` lines sits verbatim between those delimiter lines. |
| Prompts.RawTextInGermanPrompt | src/lib/prompts.ts:51-54 | The German prompt contains the raw text verbatim between its two `"""` lines. |
| Prompts.RawTextInFrenchPrompt | src/lib/prompts.ts:107-110 | The French prompt contains the raw text verbatim between its two `"""` lines. |
| Prompts.RawTextBetweenDelimiters | src/lib/prompts.ts:129-140 | In every language, the user prompt contains the raw text verbatim between the delimiter lines. |
| Prompts.DetailDefaultsToDetailed | src/lib/prompts.ts:38 | An absent detail level builds the same prompt as "detailed". |
| Prompts.DetailLevelsDiffer | src/lib/prompts.ts:40-43 | "detailed" and "concise" give different instructions, in both languages. |
| Prompts.RegionLineIffRegion | src/lib/prompts.ts:45 | The focus-region line is empty exactly when no body region, or an empty one, is given; otherwise it is the prefix followed by the region. |
| SoapFormatter.CopyHeaders | src/lib/soap-formatter.ts:28-41 | The German headers are chosen exactly for "de", and the plan header is "PLAN" in both languages. |
| SoapFormatter.Separator | src/lib/soap-formatter.ts:26 | With separators, a newline, a 60-character rule and a newline; without them, one newline. |
| SoapFormatter.SeparatorShape | src/lib/soap-formatter.ts:26-75 | Once the elements are joined by newlines, the gap between two sections is two newlines, 60 '─' characters and two newlines with separators, and three newlines without them. |
| SoapFormatter.FormatSoapForCopy | src/lib/soap-formatter.ts:12-76 | The pushes and the final join and trim produce `CopyText`: the four sections in S, O, A, P order, each under its header when headers are on, joined by the separator. |
| SoapFormatter.CopyStartsWithSubjectiveHeader | src/lib/soap-formatter.ts:28-47 | With headers on, the copy text starts with the subjective header of its language, followed by ':'. |
| SoapFormatter.CopyIsLayoutWhenPlanEndsInText | src/lib/soap-formatter.ts:43-75 | With headers on and a plan ending in a non-space character, the copy text is exactly the headed layout, and it ends with the plan verbatim. |
| SoapFormatter.MarkdownHeaders | src/lib/soap-formatter.ts:134-147 | The German headings are chosen exactly for "de"; the plan heading is "Plan". |
| SoapFormatter.MarkdownIsHeadedSections | src/lib/soap-formatter.ts:130-165 | The markdown is four "## " headings in S, O, A, P order, each followed by its section text. |
| SoapFormatter.GetSoapSectionLengths | src/lib/soap-formatter.ts:172-190 | Each count is the length of its section, and the total is their sum and also the length of their concatenation. |
| SoapFormatter.SectionLengthsOfValidSoap | src/lib/soap-formatter.ts:172-190 | A schema-valid SOAP totals between 4 and 40000 characters. |
| SoapFormatter.MarkdownLength | src/lib/soap-formatter.ts:130-165 | The markdown is exactly 58 characters longer than the four sections together. |
| SoapFormatter.FormatSoapAsMarkdown | src/lib/soap-formatter.ts:130-165 | Builds the markdown; MarkdownIsHeadedSections and MarkdownLength state its layout and length. |
| SoapFormatter.MissingTestIsSectionMissing | src/lib/soap-formatter.ts:203-214 | The source's missing test (falsy, empty after trimming, or exactly "N/A") is the model's `SectionMissing`. |
| SoapFormatter.IsSectionMissing | src/lib/soap-formatter.ts:203-214 | The per-section test decides `SectionMissing`. |
| SoapFormatter.ValidateSoapCompleteness | src/lib/soap-formatter.ts:197-220 | The missing list is `MissingSections`, and the note is complete exactly when that list is empty. |
| SoapFormatter.MissingSectionsFacts | src/lib/soap-formatter.ts:197-220 | A section is listed exactly when it is missing, each listed once, in S, O, A, P order. |
| SoapFormatter.PlaceholdersAndCompleteness | src/lib/soap-formatter.ts:203 | The German placeholder "N/A" counts as missing; the French "N/D" does not. |
| SoapFormatter.ValidButIncomplete | src/lib/soap-formatter.ts:197-220 | A SOAP of four "N/A" sections passes the schema but lists all four sections as missing. |
| SoapFormatter.TruncateSection | src/lib/soap-formatter.ts:232-233 | A section no longer than the limit is unchanged. A longer one becomes a prefix plus "...", exactly the limit long when the limit is at least 3, and just "..." below that. |
| SoapFormatter.TruncateSectionIdempotent | src/lib/soap-formatter.ts:228-241 | Truncating twice gives the same result as truncating once. |
| SoapFormatter.TruncateSoap | src/lib/soap-formatter.ts:228-241 | The limit defaults to 200. Each section no longer than the limit is unchanged; a longer one keeps its first limit − 3 characters and ends in "...", exactly the limit long when the limit is at least 3, and just "..." below that. |
| SoapFormatter.TruncateSoapFacts | src/lib/soap-formatter.ts:228-241 | Truncation keeps the SOAP schema-valid and is idempotent. With a limit of at least 3, the four sections together are at most four times the limit long. |
| SoapFormatter.DecimalDigits | src/lib/soap-formatter.ts:109 | A non-negative integer renders as decimal digits with no leading zero, and reading them back gives the number. |
| SoapFormatter.KeepTruthy | src/lib/soap-formatter.ts:113 | `filter(Boolean)` keeps only non-empty present lines, and is never longer than its input. |
| SoapFormatter.KeepTruthyMembers | src/lib/soap-formatter.ts:113 | A string is kept exactly when it is present among the entries and non-empty. |
| SoapFormatter.KeepTruthyAppend | src/lib/soap-formatter.ts:113 | Filtering distributes over concatenation. |
| SoapFormatter.MetadataLinesParts | src/lib/soap-formatter.ts:103-114 | The metadata block is the rule, the title, the optional lines that are present, the generated and model lines, and the rule. |
| SoapFormatter.MetadataLinesShape | src/lib/soap-formatter.ts:103-114 | The header lines number five to seven, open and close with the rule (the trailing empty entry is filtered away), and the third is the patient line exactly when a patient name is given. |
| SoapFormatter.FormatSoapWithMetadata | src/lib/soap-formatter.ts:93-122 | Builds the header block and the copy text; FormatSoapWithMetadataShape states the frame. |
| SoapFormatter.MetadataHeaderFrame | src/lib/soap-formatter.ts:103-114 | The joined header block starts with the rule line and ends with it. |
| SoapFormatter.FormatSoapWithMetadataShape | src/lib/soap-formatter.ts:93-122 | The text opens with the rule line; the header block closes with the rule line, then a newline and the copy text with headers and separators. |
| AzureOpenAI.ValidateEURegion | src/lib/azure-openai.ts:24-41 | A missing or empty region is rejected; otherwise it passes exactly when its lower-cased, trimmed form is one of the eight EU regions. |
| AzureOpenAI.UnsetFlags | src/lib/azure-openai.ts:48-57 | Marks exactly the required variables that are unset or empty. |
| AzureOpenAI.ValidateEnvironment | src/lib/azure-openai.ts:47-68 | Any missing variable is reported before the region is checked; with all four set, the verdict is the region guard's. |
| AzureOpenAI.NoMissingNamesIffAllSet | src/lib/azure-openai.ts:55-64 | The missing list is empty exactly when all four variables are set. |
| AzureOpenAI.MissingVariableNames | src/lib/azure-openai.ts:55-57 | The names of the unset or empty required variables, in declaration order; NoMissingNamesIffAllSet and ValidateEnvironmentFacts state when it is empty and which names it lists. |
| AzureOpenAI.ValidateEnvironmentFacts | src/lib/azure-openai.ts:47-68 | The environment passes exactly when all four variables are set and the region passes. The error names exactly the unset variables, each once, in declaration order. |
| AzureOpenAI.RegionVerdictIgnoresCase | src/lib/azure-openai.ts:32-34 | Lower-casing the region first never changes the verdict. |
| AzureOpenAI.GetRegion | src/lib/azure-openai.ts:107-111 | Fails exactly when the guard fails, with the guard's error. On success, the region is lower-cased, keeps its length, and trims to an EU region. |
| AzureOpenAI.GetRegionKeepsEdges | src/lib/azure-openai.ts:107-111 | The returned region keeps, as given, every character other than A-Z, surrounding whitespace included: it is not trimmed. |
| AzureOpenAI.OrDefault | src/lib/azure-openai.ts:86 | `value or default`: the value when set and non-empty, otherwise the default. |
| AzureOpenAI.GetModelDeployment | src/lib/azure-openai.ts:85-87 | The deployment when set, otherwise "gpt-4o-mini-eu"; never empty. |
| AzureOpenAI.GetApiVersion | src/lib/azure-openai.ts:100-102 | The API version when set, otherwise "2024-02-01"; never empty. |
| AzureOpenAI.GetMaxOutputTokens | src/lib/azure-openai.ts:92-95 | 1024 when unset or empty, without parsing; otherwise the parsed value. |
| Database.Where | src/app/actions/soap.ts:244-249 | An equality query: exactly the rows that satisfy the filter. |
| Database.Single | src/app/actions/soap.ts:228-233 | `.single()`: a row only when exactly one row matches, and then it is that row. |
| Database.HighestVersion | src/app/actions/soap.ts:253-259 | None exactly when the visit has no note; otherwise a note of the visit with the greatest version. |
| Database.LatestTranscript | src/app/actions/visits.ts:213-220 | None exactly when the visit has no transcript; otherwise a transcript of the visit created last. |
| Database.NextVersion | src/app/actions/soap.ts:303-311 | Above every version the visit has, 1 when it has none, and otherwise one above the greatest. |
| Database.NextVersionKeepsDistinct | src/app/actions/soap.ts:303-320 | Appending a note with the next version keeps the versions of each visit distinct. |
| Database.PatchVisits | src/app/actions/visits.ts:307-312 | An update by id keeps the length. |
| Database.PatchVisitsFacts | src/app/actions/visits.ts:307-312 | An update by id changes only the rows with that id. There it sets the status, gives each timestamp the patch names the patch's value, and keeps every other column. |
| Database.StatusPatchesCollapse | src/app/actions/soap.ts:281-350 | A status-only update followed by another update equals the second update alone. |
| Database.PatchNotes | src/app/actions/soap.ts:414-419 | A note update by id keeps the length. |
| Database.CurrentProfileId | src/app/actions/soap.ts:33-53 | No signed-in user is "not authenticated". A signed-in user with exactly one profile gets that profile's id; with none or several, "profile not found". |
| Database.OwnedNote | src/app/actions/soap.ts:396-408 | A note found for a profile has that id, and its visit belongs to that profile. |
| Database.OwnedNoteFound | src/app/actions/soap.ts:396-408 | With unique note and visit ids, a note whose visit belongs to the profile is found by its id. |
| Database.OwnedVisit | src/app/actions/soap.ts:228-240 | A visit found has the requested id and belongs to the provider. |
| Database.OwnedVisitFound | src/app/actions/soap.ts:228-240 | With unique visit ids, a visit of the provider is found by its id. |
| Database.AdmittedVisit | src/app/actions/visits.ts:199-211 | Without the caller's profile nothing is found; a visit found has the requested id and belongs to the caller's profile. |
| Database.WhereAtMostOne | src/app/actions/soap.ts:228-233 | When no two rows satisfy the filter, the query returns at most one row. |
| Database.SingleFound | src/app/actions/soap.ts:228-233 | When no two rows satisfy the filter, `.single()` returns the row that does. |
| Database.FreshRowId | src/lib/database.types.ts:71-178 | A new row id was not issued before. |
| Database.OwnedVisitIsTheRow | src/app/actions/soap.ts:228-240 | With unique ids, the owned visit found is the row with that id. |
| Database.Store.constructor | src/lib/database.types.ts:71-178 | A store over given profiles and patients, with no other rows, satisfies its invariant. |
| Database.Store.InsertVisit | src/app/actions/visits.ts:86-97 | Appends the new visit, with a fresh id and no timestamps, and changes nothing else. |
| Database.Store.UpdateVisits | src/app/actions/visits.ts:307-312 | Patches the visits with that id and changes nothing else. |
| Database.Store.InsertTranscript | src/app/actions/soap.ts:80-96 | Appends the transcript, stamped now, which becomes the visit's latest, and changes nothing else. |
| Database.Store.InsertNote | src/app/actions/soap.ts:313-334 | Appends the note and changes nothing else. |
| Database.Store.UpdateNotes | src/app/actions/soap.ts:414-419 | Patches the note with that id and changes nothing else. |
| Database.Store.InsertMetrics | src/app/actions/soap.ts:336-344 | Appends the metric row and changes nothing else. |
| Database.LatestTranscriptOfAppended | src/app/actions/transcription.ts:260-271 | A transcript created after all stored ones is its visit's latest. |
| SoapActions.AttemptFacts | src/app/actions/soap.ts:146-198 | Success carries the first accepted reply, whose SOAP passes the schema. Failure holds exactly when all remaining attempts were rejected, and always reports the attempts exhausted. |
| SoapActions.SoapRequest | src/app/actions/soap.ts:144-159 | The request carries the language and the prompt parameters of the cleaned text. Its token limit is parseInt of the setting, or parseInt of "1024" when it is unset; unlike GetMaxOutputTokens, the default is parsed too. |
| SoapActions.Accepted | src/app/actions/soap.ts:161-168 | An attempt is accepted exactly when the call returns and its object passes the SOAP schema; a throw or a rejected object is a failed attempt. |
| SoapActions.Attempt | src/app/actions/soap.ts:146-198 | The recursion of the attempts; AttemptFacts states its outcome. |
| SoapActions.RetryAttempts | src/app/actions/soap.ts:146-198 | At most 3 model calls, until the first accepted reply. The waits are 1000 ms after the first failure and 2000 ms after the second; the 3000 ms entry is never used. |
| SoapActions.GenerationFacts | src/app/actions/soap.ts:119-199 | An invalid length fails at once with the length error. Otherwise failure means the attempts ran out, which holds exactly when all 3 were rejected, and a success always passes the SOAP schema. |
| SoapActions.Generation | src/app/actions/soap.ts:119-199 | What the generation returns; GenerationFacts states its outcome, and GenerateSoapWithRetry computes it. |
| SoapActions.GenerateSoapWithRetry | src/app/actions/soap.ts:119-199 | An invalid length returns with no model call and no wait. Otherwise there are one to three calls with the waits above, and the result is the first accepted reply. |
| SoapActions.NoteModel | src/app/actions/soap.ts:317 | The model name recorded is "azure:" followed by the configured deployment, or by its default. |
| SoapActions.TokensIn | src/app/actions/soap.ts:171 | The reported prompt tokens when they are non-zero, otherwise the estimate, also when usage is present with a count of 0; a count of 0 is recorded only when the estimate is 0 too. |
| SoapActions.TokensOut | src/app/actions/soap.ts:172 | The reported completion tokens when they are non-zero, otherwise the estimate of the serialised object, also when usage is present with a count of 0; a count of 0 is recorded only when that estimate is 0 too. |
| SoapActions.FindReusableNote | src/app/actions/soap.ts:242-268 | A note is reused only when a transcript of the visit hashes like the new text, and it is the visit's highest-version note. When every stored transcript matches and a note exists, a note is always reused. |
| SoapActions.GenerateAndStore | src/app/actions/soap.ts:281-350 | The status goes to processing, then failed on a generation failure. A failed note insert leaves it at processing. On success, the note gets the next version, is not final, is recorded as "azure:"+deployment, and comes with its metrics row; the status goes to completed with ended_at. |
| SoapActions.GenerateSoapNote | src/app/actions/soap.ts:207-368 | With no profile or no owned visit, nothing is written. The short-circuit returns the highest-version note with no write. A transcript save failure returns before any status change. Otherwise the status sequence and the new note are as in `GenerateAndStore`, and versions stay distinct. |
| SoapActions.ReplaceSoapChangesOnlySoap | src/app/actions/soap.ts:410-419 | Replacing a note's SOAP changes nothing else: not id, visit, model, version or final flag, final note or not, and no other note. |
| SoapActions.MarkFinalIdempotent | src/app/actions/soap.ts:474-479 | Finalising sets only the final flag of that note, and doing it again changes nothing. |
| SoapActions.AdmittedNote | src/app/actions/soap.ts:396-408 | Without the caller's profile nothing is found; a note found has the requested id, and its visit belongs to the caller's profile. |
| SoapActions.UpdateSoapNote | src/app/actions/soap.ts:375-445 | The SOAP is validated first; then the profile and the note's ownership are checked. Then only that note's SOAP is replaced, and every failure leaves the store unchanged. |
| SoapActions.MarkNoteAsFinal | src/app/actions/soap.ts:451-505 | After the ownership check, only the final flag is set; every failure leaves the store unchanged. |
| SoapActions.RegenerationText | src/app/actions/soap.ts:529-549 | The given text when non-empty; otherwise the text of the visit's latest transcript, and None exactly when the visit has none. |
| SoapActions.SingleTranscriptAlwaysSeen | src/app/actions/soap.ts:244-251 | With a single stored transcript, every unordered lookup finds the latest one. |
| SoapActions.RegenerateSoapNote | src/app/actions/soap.ts:513-563 | As written: with no text and no transcript, it fails without writing. Without new text and with a note present, once the stored transcripts all match the latest, it returns the existing note and writes nothing. |
| SoapActions.RegenerateSoapNoteFresh | src/app/actions/soap.ts:513-563 | Corrected: for an owned visit whose generation succeeds, it always creates a new note, one version above every stored one. |
| VisitActions.CreateVisit | src/app/actions/visits.ts:53-123 | The form is validated first, then ownership of the patient; any failure writes nothing. The new visit is always a draft without timestamps, whatever status the form names. |
| VisitActions.OwnedPatient | src/app/actions/visits.ts:71-84 | A patient found has the requested id and belongs to the owner. |
| VisitActions.OwnedPatientFound | src/app/actions/visits.ts:71-84 | With unique patient ids, a patient of the owner is found by its id. |
| VisitActions.GetVisit | src/app/actions/visits.ts:189-249 | Succeeds exactly for the caller's own visit. It pairs the visit with its latest transcript by creation time and its highest-version note, each None exactly when there is none. |
| VisitActions.StatusUpdate | src/app/actions/visits.ts:293-305 | Never sets started_at. Sets ended_at to now exactly when moving to completed from another status. |
| VisitActions.StatusNamesAreTruthy | src/lib/database.types.ts:76 | A stored status always reads as a non-empty name, so the started_at branch never fires. |
| VisitActions.UpdateVisitStatus | src/app/actions/visits.ts:257-320 | A status outside the five is rejected before the store is touched. Any valid status may replace any other. started_at never changes, and a completed visit keeps its ended_at. |
| TranscriptionActions.Round | src/app/actions/transcription.ts:285 | `Math.round`: the integer within half a unit, with halves rounded up. |
| TranscriptionActions.RoundFacts | src/app/actions/transcription.ts:285 | Integers round to themselves, and halves round up. |
| TranscriptionActions.SttModel | src/app/actions/transcription.ts:286 | "deepgram:" followed by the configured model, or by the default when none is set. |
| TranscriptionActions.SttMetrics | src/app/actions/transcription.ts:281-290 | A metric row of the rounded duration and the STT model, with no language-model fields. |
| TranscriptionActions.SchemaAfterLengthCheck | src/app/actions/transcription.ts:245-258 | Once the cleaned text has passed the length check, the transcript schema can only reject the confidence: it passes exactly when the confidence is absent or in [0, 1]. |
| TranscriptionActions.StoreStreamTranscript | src/app/actions/transcription.ts:214-302 | Profile, then ownership, then schema; each failure writes nothing. On success, it stores the cleaned text and writes a metric row only for a truthy duration. The visit becomes completed without ended_at. |
| TranscriptionActions.SaveTranscriptFromStream | src/app/actions/transcription.ts:180-313 | No user, or cleaned text of invalid length, fails before any store access. A stored transcript holds the cleaned text, lies in the length band, and is the visit's latest. |
| TranscriptionActions.RecordingPatch | src/app/actions/transcription.ts:368-375 | Sets started_at only when moving from draft to recording, and ended_at whenever the target is completed. |
| TranscriptionActions.RecordingAndVisitUpdatesDiffer | src/app/actions/transcription.ts:368-375 | Unlike the visit status update, repeating completed overwrites ended_at, and draft to recording sets started_at. |
| TranscriptionActions.UpdateRecordingStatus | src/app/actions/transcription.ts:320-406 | After the ownership check, only the owned visit changes, with the recording patch. started_at changes only from draft to recording, and ended_at only for completed. Draft is never a target. |

## Left out

- I/O and infrastructure: the database client, authentication, `revalidatePath`, logging and the clock are not modelled. Identity is a parameter, timestamps are `now`, and time is the store's clock.
- Writes whose error the source ignores always succeed in the model. These are the status updates in `generateSoapNote`, the update of the visit to completed in `saveTranscriptFromStream`, and the metric inserts.
- Concurrency is not modelled: the actions run one after another, so version assignment has no race.
- `createUsageMetrics` is not applied: a usage_metrics row is kept as the arguments handed to it (`Database.MetricsRequest`). `estimateRequestTokens`, `estimateTokenCount`, `JSON.stringify` and `parseInt` are parameters; their code is not part of this model.
- `formatSoapAsJson` is not modelled; it is only `JSON.stringify`.
- `SoapActions.TokensIn` uses `estimateRequestTokens`: the estimate of the request's system and user text together, as one opaque value. It is not the estimator applied to the concatenated string.
- Prompts.GetSoapSystemPrompt: it is not proved that the French and German system texts differ (the proof is too costly for the verifier). The system-prompt texts and the user-prompt templates are written out in full, with the `N/A` and `N/D` placeholders as shared constants. Nothing is proved about their wording beyond the placeholders, which the completeness test is checked against.
- `extractDeepgramMetadata` and the raw JSON payload are not modelled: they are untyped JSON navigation.
- The Deepgram schemas check only the message type and the final flag.
- `getVisitsByPatient`, `deleteVisit` and `getRecentVisits` are thin query wrappers, so they are not modelled.
- `getDeepgramConfig` and `getDeepgramTemporaryKey` are environment and network reads, so they are not modelled.
- `getAzureConfigSummary`, `getAzureModel`, `createAzure` and the environment check at module load are not modelled. They are configuration plumbing; their checks are `ValidateEnvironment` and the getters.
- src/app/actions/patients.ts, src/app/page.tsx and src/app/api/stt/stream/route.ts are not part of this model.
- Strings are sequences of UTF-16 code units, with text assumed to stay in the Basic Multilingual Plane.
- `toLowerCase` is modelled for ASCII letters only.
- Whitespace and word characters are the ASCII classes of JavaScript regular expressions, plus the few Unicode spaces listed in `JsText.IsSpace`.
- `toLocaleString` and the date line of `formatSoapWithMetadata` are opaque strings.
- Numbers that are NaN or infinite are not modelled.
- Issue messages are not modelled: issues carry the field path and the kind of violation only.
- The sleeps are a ghost list of delays.
- SoapActions.GenerateSoapWithRetry validates the cleaned text once. The source validates it again inside every attempt, but the text does not change, so the outcome is the same.
- SoapActions.FindReusableNote models the unordered transcript lookup as an arbitrary transcript of the visit. "Some transcript matches" is necessary for reuse; "every transcript matches" is sufficient.
- Database.HighestVersion and Database.LatestTranscript resolve ties to the earliest stored row; the database's order for ties is not modelled.
- Database.Store.Valid assumes unique primary keys and creation times before the clock; the database enforces these.
- SoapActions.GenerateSoapNote takes the flag `reuseExisting`. Every call in the source passes true; false exists only for the corrected regeneration.

## Findings

| source | as written | input that shows it | evidently intended | confidence | as-written member | corrected member |
|---|---|---|---|---|---|---|
| src/app/actions/soap.ts:513-552 | Without new text, `regenerateSoapNote` passes the latest stored transcript to `generateSoapNote`. Its idempotency check (lines 243-267) then finds that transcript's hash and returns the existing note. | A visit with one stored transcript and one note, regenerated with no text: the existing note comes back, and no new version is created or stored. | Regeneration produces a new note one version above the existing ones. | not executed | SoapActions.RegenerateSoapNote | SoapActions.RegenerateSoapNoteFresh |
