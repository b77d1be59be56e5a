/**
 * The system prompts and the user-prompt builders of src/lib/prompts.ts.
 * The texts are written out in full. The placeholder each language uses for
 * missing information is one constant, spliced into every place its prompts
 * name it. What is proved is which template is chosen and how the user prompt
 * is put together around the raw text; nothing is proved about the wording.
 */
module Prompts {
  import opened Wrappers
  import opened Schemas

  /** What the German prompts ask the model to write for missing information. */
  const PLACEHOLDER_DE: string := "N/A"
  /** What the French prompts ask the model to write for missing information. */
  const PLACEHOLDER_FR: string := "N/D"

  /**
   * `SOAP_SYSTEM_DE` and `SOAP_SYSTEM_FR`, keyed by the template language
   * (there is no "auto" template; it is never asked for).
   */
  function SystemPromptText(template: LanguagePref): string {
    if template == Fr then
      "Tu es un assistant clinique pour la kinésithérapie en français.\n"
        + ("Génère une **note SOAP détaillée** à partir d'une transcription ou d'un texte libre.\n"
         + "\n"
         + "RÈGLES :\n"
         + "- **Langue** : Français.\n"
         + "- **Ne rien inventer** : Information manquante = \"" + PLACEHOLDER_FR + "\" (non disponible).\n"
         + "- **Structure & Format** : Sortie uniquement en JSON {subjective, objective, assessment, plan}.\n"
         + "- **Style** : clinique, précis, phrases courtes, puces autorisées.\n"
         + "- **Objectifs** : si possible SMART (spécifiques, mesurables, atteignables, réalistes, temporellement définis).\n"
         + "\n"
         + "EXIGENCES :\n"
         + "- SUBJECTIF : Plaintes principales, échelle de douleur (EVA/EN 0–10), évolution, drapeaux rouges (si mentionnés).\n"
         + "- OBJECTIF : Mesures (amplitude articulaire en degrés °), force musculaire (0–5), tests pertinents (ex. Lasègue, Hawkins-Kennedy), observations.\n"
         + "- ÉVALUATION : Appréciation clinique, hypothèses, irritabilité (faible/moyenne/élevée), progrès depuis la dernière séance (si disponible).\n"
         + "- PLAN : Interventions (avec dosage/fréquence), programme d'exercices à domicile (PED), objectifs SMART, prochaines étapes/rendez-vous.\n"
         + "\n"
         + "IMPORTANT :\n"
         + "- Si une information manque, écrivez \"" + PLACEHOLDER_FR + "\" au lieu d'inventer.\n"
         + "- La sortie doit être un JSON valide avec exactement ces 4 champs : subjective, objective, assessment, plan.\n"
         + "- Restez objectif et clinique. Pas d'opinions personnelles ou de spéculations.")
    else
      "Du bist ein klinischer Assistent für Physiotherapie auf Deutsch.\n"
        + ("Erzeuge eine **detaillierte SOAP-Notiz** aus Transkript oder Freitext.\n"
         + "\n"
         + "REGELN:\n"
         + "- **Sprache**: Deutsch.\n"
         + "- **Nichts erfinden**: Fehlende Information = \"" + PLACEHOLDER_DE + "\".\n"
         + "- **Struktur & Format**: Ausgabe ausschließlich als JSON {subjective, objective, assessment, plan}.\n"
         + "- **Stil**: klinisch, präzise, kurze Sätze, Stichpunkte erlaubt.\n"
         + "- **Ziele**: nach Möglichkeit SMART (konkret, messbar, terminierbar).\n"
         + "\n"
         + "ANFORDERUNGEN:\n"
         + "- SUBJEKTIV: Hauptbeschwerden, Schmerzskala (NRS/VAS 0–10), Verlauf, Red Flags (falls erwähnt).\n"
         + "- OBJEKTIV: Messwerte (ROM in Grad °), Kraftgrade (0–5), relevante Tests (z. B. Lasègue, Hawkins-Kennedy), Beobachtungen.\n"
         + "- ASSESSMENT: Klinische Einschätzung, Hypothesen, Irritabilität (niedrig/mittel/hoch), Fortschritt seit letzter Sitzung (falls vorhanden).\n"
         + "- PLAN: Interventionen (mit Dosierung/Frequenz), HEP, Ziele nach SMART, nächste Schritte/Termine.\n"
         + "\n"
         + "WICHTIG:\n"
         + "- Wenn eine Information fehlt, schreibe \"" + PLACEHOLDER_DE + "\" statt etwas zu erfinden.\n"
         + "- Die Ausgabe muss valides JSON sein mit genau diesen 4 Feldern: subjective, objective, assessment, plan.\n"
         + "- Bleibe objektiv und klinisch. Keine persönlichen Meinungen oder Spekulationen.")
  }

  datatype Detail = Concise | Detailed

  /** The parameters of a user prompt; an absent key is `None`. */
  datatype PromptParams = PromptParams(rawText: string, detail: Option<Detail>, bodyRegion: Option<string>)

  /** The focus-region line, empty when no non-empty region is given. */
  function RegionLine(prefix: string, bodyRegion: Option<string>): string {
    if bodyRegion.Some? && bodyRegion.value != "" then prefix + bodyRegion.value else ""
  }

  // The user-prompt texts are written as short literal pieces: the prompt
  // lemmas below reason about their lengths and first characters, and short
  // pieces keep those proofs cheap.

  const TRANSCRIPT_OPEN: string := "\"\"\"\n"
  const TRANSCRIPT_CLOSE: string := "\n\"\"\""

  function DetailInstructionDE(d: Detail): string {
    if d == Detailed then "hoch " + "(bitte Messwerte" + "/Tests/Scores " + "aufnehmen)" else "mittel " + "(nur Kernaussagen)"
  }

  /** The German user prompt up to the line that opens the raw text. */
  function UserPromptHeadDE(p: PromptParams): string {
    "KONTEXT:\n" + "- Detailtiefe: " + DetailInstructionDE(p.detail.GetOr(Detailed)) + "\n"
    + RegionLine("- Fokusregion: ", p.bodyRegion) + "\n\nTRANSKRIPTION" + "/NOTIZEN:\n"
  }

  /** The German user prompt after the line that closes the raw text. */
  function UserPromptNoteDE(): string {
    "\n\nHINWEIS:\n" + "- System-Regeln " + "gelten (Deutsch, " + "nichts erfinden " + "→ \"" + PLACEHOLDER_DE + "\", "
    + "Ausgabe nur " + "JSON).\n" + "- Die Ausgabe " + "muss ein valides " + "JSON-Objekt sein: "
    + "{\"subjective\": " + "\"...\", " + "\"objective\": " + "\"...\", " + "\"assessment\": " + "\"...\", " + "\"plan\": " + "\"...\"}"
  }

  /** `createSoapUserPromptDE`. */
  function CreateSoapUserPromptDE(p: PromptParams): string {
    UserPromptHeadDE(p) + TRANSCRIPT_OPEN + p.rawText + TRANSCRIPT_CLOSE + UserPromptNoteDE()
  }

  function DetailInstructionFR(d: Detail): string {
    if d == Detailed then "élevé " + "(inclure les " + "mesures/tests" + "/scores)" else "moyen " + "(uniquement " + "les points " + "essentiels)"
  }

  function UserPromptHeadFR(p: PromptParams): string {
    "CONTEXTE :\n" + "- Niveau de détail : " + DetailInstructionFR(p.detail.GetOr(Detailed)) + "\n"
    + RegionLine("- Région ciblée : ", p.bodyRegion) + "\n\nTRANSCRIPTION" + "/NOTES :\n"
  }

  function UserPromptNoteFR(): string {
    "\n\nREMARQUE :\n" + "- Les règles " + "système " + "s'appliquent " + "(Français, " + "ne rien " + "inventer → \"" + PLACEHOLDER_FR + "\", "
    + "sortie JSON " + "uniquement).\n" + "- La sortie " + "doit être " + "un objet JSON " + "valide : "
    + "{\"subjective\": " + "\"...\", " + "\"objective\": " + "\"...\", " + "\"assessment\": " + "\"...\", " + "\"plan\": " + "\"...\"}"
  }

  /** `createSoapUserPromptFR`. */
  function CreateSoapUserPromptFR(p: PromptParams): string {
    UserPromptHeadFR(p) + TRANSCRIPT_OPEN + p.rawText + TRANSCRIPT_CLOSE + UserPromptNoteFR()
  }

  /** The template both selectors pick: French only for "fr"; "de" and "auto" get German. */
  function TemplateLanguage(language: LanguagePref): (template: LanguagePref)
    ensures template == Fr <==> language == Fr
    ensures template != Auto
  {
    if language == Fr then Fr else De
  }

  /** `getSoapSystemPrompt`. */
  function GetSoapSystemPrompt(language: LanguagePref): string {
    SystemPromptText(TemplateLanguage(language))
  }

  /** `createSoapUserPrompt`. */
  function CreateSoapUserPrompt(language: LanguagePref, p: PromptParams): string {
    if TemplateLanguage(language) == Fr then CreateSoapUserPromptFR(p) else CreateSoapUserPromptDE(p)
  }

  /** The two user-prompt builders never produce the same prompt. */
  lemma UserPromptsDiffer(p: PromptParams)
    ensures CreateSoapUserPromptDE(p) != CreateSoapUserPromptFR(p)
  {
    assert CreateSoapUserPromptDE(p)[0] == 'K';
    assert CreateSoapUserPromptFR(p)[0] == 'C';
  }

  /** The French user prompt is produced exactly for "fr", the German one otherwise. */
  lemma FrenchExactlyForFr(language: LanguagePref, p: PromptParams)
    ensures CreateSoapUserPrompt(language, p) == CreateSoapUserPromptFR(p) <==> language == Fr
    ensures CreateSoapUserPrompt(language, p) == CreateSoapUserPromptDE(p) <==> language != Fr
  {
    UserPromptsDiffer(p);
  }

  /** Where the raw text starts in the user prompt. */
  function RawTextOffset(language: LanguagePref, p: PromptParams): nat {
    (if language == Fr then |UserPromptHeadFR(p)| else |UserPromptHeadDE(p)|) + |TRANSCRIPT_OPEN|
  }

  /** `raw` stands in `prompt` at offset `k`, right after a `"""` line and right before one. */
  predicate DelimitedAt(prompt: string, k: int, raw: string) {
    && 4 <= k && k + |raw| + 4 <= |prompt|
    && prompt[k - 4..k] == TRANSCRIPT_OPEN
    && prompt[k..k + |raw|] == raw
    && prompt[k + |raw|..k + |raw| + 4] == TRANSCRIPT_CLOSE
  }

  /** A text spliced between the two delimiters is found, verbatim, right after the opening one. */
  lemma SplicedBetween(front: string, raw: string, back: string)
    ensures DelimitedAt(front + TRANSCRIPT_OPEN + raw + TRANSCRIPT_CLOSE + back, |front| + 4, raw)
  {
  }

  lemma RawTextInGermanPrompt(p: PromptParams)
    ensures DelimitedAt(CreateSoapUserPromptDE(p), |UserPromptHeadDE(p)| + 4, p.rawText)
  {
    SplicedBetween(UserPromptHeadDE(p), p.rawText, UserPromptNoteDE());
  }

  lemma RawTextInFrenchPrompt(p: PromptParams)
    ensures DelimitedAt(CreateSoapUserPromptFR(p), |UserPromptHeadFR(p)| + 4, p.rawText)
  {
    SplicedBetween(UserPromptHeadFR(p), p.rawText, UserPromptNoteFR());
  }

  /** The user prompt carries the raw text verbatim, right after a `"""` line and right before one. */
  lemma RawTextBetweenDelimiters(language: LanguagePref, p: PromptParams)
    ensures DelimitedAt(CreateSoapUserPrompt(language, p), RawTextOffset(language, p), p.rawText)
  {
    if language == Fr {
      RawTextInFrenchPrompt(p);
    } else {
      RawTextInGermanPrompt(p);
    }
  }

  /**
   * The detail level defaults to "detailed", which asks for the high level of
   * detail; "concise" asks for the medium one.
   */
  lemma DetailDefaultsToDetailed(p: PromptParams)
    ensures p.detail.None? ==> CreateSoapUserPromptDE(p) == CreateSoapUserPromptDE(p.(detail := Some(Detailed)))
    ensures p.detail.None? ==> CreateSoapUserPromptFR(p) == CreateSoapUserPromptFR(p.(detail := Some(Detailed)))
  {
  }

  lemma DetailLevelsDiffer()
    ensures DetailInstructionDE(Detailed) != DetailInstructionDE(Concise)
    ensures DetailInstructionFR(Detailed) != DetailInstructionFR(Concise)
  {
    assert DetailInstructionDE(Detailed)[0] == 'h';
    assert DetailInstructionDE(Concise)[0] == 'm';
    assert DetailInstructionFR(Detailed)[0] == 'é';
    assert DetailInstructionFR(Concise)[0] == 'm';
  }

  /** The region line names the region exactly when a non-empty one is given, and is empty otherwise. */
  lemma RegionLineIffRegion(prefix: string, bodyRegion: Option<string>)
    requires prefix != ""
    ensures RegionLine(prefix, bodyRegion) == "" <==> bodyRegion.None? || bodyRegion.value == ""
    ensures RegionLine(prefix, bodyRegion) != "" ==> RegionLine(prefix, bodyRegion) == prefix + bodyRegion.value
  {
  }
}
