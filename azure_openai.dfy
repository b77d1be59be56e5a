/**
 * Configuration of the language-model client: the EU-region guard, the check
 * of the required environment variables and the configuration getters with
 * their defaults. The process environment is a value of type `Env`; a
 * variable that is not set is `None`.
 */
module AzureOpenAI {
  import opened Wrappers
  import opened JsText

  datatype Env = Env(
    endpoint: Option<string>,
    apiKey: Option<string>,
    region: Option<string>,
    deployment: Option<string>,
    maxOutputTokens: Option<string>,
    apiVersion: Option<string>)

  /** A variable that is set to a non-empty value (JavaScript truthiness of `string | undefined`). */
  predicate IsSet(v: Option<string>) {
    v.Some? && Truthy(v.value)
  }

  /** The eight regions inside the European Union's data boundary. */
  const EU_REGIONS: seq<string> := [
    "westeurope", "northeurope", "francecentral", "germanywestcentral",
    "switzerlandnorth", "norwayeast", "swedencentral", "polandcentral"]

  datatype ConfigError =
    | MissingVariables(names: seq<string>)
    | RegionMissing
    | RegionNotEU(region: string)

  /** The region lower-cased and trimmed, as the guard compares it. */
  function NormalizedRegion(region: string): string {
    Trim(ToLowerAscii(region))
  }

  /** The EU-region guard: `None` when the region passes. */
  function ValidateEURegion(region: Option<string>): (r: Option<ConfigError>)
    ensures !IsSet(region) ==> r == Some(RegionMissing)
    ensures IsSet(region) ==> (r.None? <==> NormalizedRegion(region.value) in EU_REGIONS)
    ensures IsSet(region) && r.Some? ==> r.value == RegionNotEU(region.value)
  {
    if !IsSet(region) then Some(RegionMissing)
    else if NormalizedRegion(region.value) in EU_REGIONS then None
    else Some(RegionNotEU(region.value))
  }

  /** The required variables, in declaration order. */
  const REQUIRED_NAMES: seq<string> :=
    ["AZURE_OPENAI_ENDPOINT", "AZURE_OPENAI_API_KEY", "AZURE_OPENAI_REGION", "AZURE_OPENAI_DEPLOYMENT"]

  function RequiredValues(env: Env): (vs: seq<Option<string>>)
    ensures |vs| == 4
  {
    [env.endpoint, env.apiKey, env.region, env.deployment]
  }

  /** Whether each required variable is unset or empty. */
  function UnsetFlags(env: Env): (flags: seq<bool>)
    ensures |flags| == 4
    ensures forall i :: 0 <= i < 4 ==> flags[i] == !IsSet(RequiredValues(env)[i])
  {
    [!IsSet(env.endpoint), !IsSet(env.apiKey), !IsSet(env.region), !IsSet(env.deployment)]
  }

  /** The names of the unset required variables, in declaration order. */
  function MissingVariableNames(env: Env): seq<string> {
    KeysWhere(UnsetFlags(env), REQUIRED_NAMES, 4)
  }

  /** All missing variables are reported together; only a complete set reaches the region guard. */
  function ValidateEnvironment(env: Env): (r: Option<ConfigError>)
    ensures MissingVariableNames(env) != [] ==> r == Some(MissingVariables(MissingVariableNames(env)))
    ensures MissingVariableNames(env) == [] ==> r == ValidateEURegion(env.region)
  {
    var missing := MissingVariableNames(env);
    if |missing| > 0 then Some(MissingVariables(missing)) else ValidateEURegion(env.region)
  }

  lemma RequiredNamesDistinct()
    ensures forall i, j :: 0 <= i < j < 4 ==> REQUIRED_NAMES[i] != REQUIRED_NAMES[j]
  {
    assert |REQUIRED_NAMES[0]| == 21 && |REQUIRED_NAMES[1]| == 20;
    assert |REQUIRED_NAMES[2]| == 19 && |REQUIRED_NAMES[3]| == 23;
  }

  /** The missing-variable list is empty exactly when all four variables are set. */
  lemma NoMissingNamesIffAllSet(env: Env)
    ensures MissingVariableNames(env) == [] <==>
      IsSet(env.endpoint) && IsSet(env.apiKey) && IsSet(env.region) && IsSet(env.deployment)
  {
    RequiredNamesDistinct();
    KeysWhereMembers(UnsetFlags(env), REQUIRED_NAMES, 4);
    var m := MissingVariableNames(env);
    if m != [] {
      var ranks := KeysWhereRanks(UnsetFlags(env), REQUIRED_NAMES, 4);
      var i := ranks[0];
      assert m[0] == REQUIRED_NAMES[i] && !IsSet(RequiredValues(env)[i]);
      assert i == 0 || i == 1 || i == 2 || i == 3;
    } else {
      forall i | 0 <= i < 4 ensures IsSet(RequiredValues(env)[i]) {
        assert REQUIRED_NAMES[i] !in m;
      }
      assert IsSet(RequiredValues(env)[0]) && IsSet(RequiredValues(env)[1]);
      assert IsSet(RequiredValues(env)[2]) && IsSet(RequiredValues(env)[3]);
    }
  }

  /**
   * The environment passes exactly when the four variables are set and the
   * region passes the guard; otherwise, if any variable is unset, the error
   * names exactly the unset ones, in declaration order, each once.
   */
  lemma ValidateEnvironmentFacts(env: Env) returns (ranks: seq<nat>)
    ensures ValidateEnvironment(env).None? <==>
      && IsSet(env.endpoint) && IsSet(env.apiKey) && IsSet(env.region) && IsSet(env.deployment)
      && ValidateEURegion(env.region).None?
    ensures !(IsSet(env.endpoint) && IsSet(env.apiKey) && IsSet(env.region) && IsSet(env.deployment)) ==>
      ValidateEnvironment(env) == Some(MissingVariables(MissingVariableNames(env)))
    ensures forall i :: 0 <= i < 4 ==> (REQUIRED_NAMES[i] in MissingVariableNames(env) <==> !IsSet(RequiredValues(env)[i]))
    ensures |ranks| == |MissingVariableNames(env)|
    ensures forall j :: 0 <= j < |ranks| ==> ranks[j] < 4 && MissingVariableNames(env)[j] == REQUIRED_NAMES[ranks[j]]
    ensures forall j, k :: 0 <= j < k < |ranks| ==> ranks[j] < ranks[k]
  {
    ranks := KeysWhereRanks(UnsetFlags(env), REQUIRED_NAMES, 4);
    RequiredNamesDistinct();
    KeysWhereMembers(UnsetFlags(env), REQUIRED_NAMES, 4);
    NoMissingNamesIffAllSet(env);
  }

  /** The guard's verdict does not depend on the case of ASCII letters. */
  lemma RegionVerdictIgnoresCase(region: string)
    ensures ValidateEURegion(Some(ToLowerAscii(region))).None? == ValidateEURegion(Some(region)).None?
  {
    ToLowerAsciiIdempotent(region);
  }

  /** `getRegion`: validates the region, then returns it lower-cased but not trimmed. */
  function GetRegion(env: Env): (r: Result<string, ConfigError>)
    ensures r.Success? <==> ValidateEURegion(env.region).None?
    ensures r.Success? ==> Trim(r.value) in EU_REGIONS && |r.value| == |env.region.value|
    ensures r.Failure? ==> Some(r.error) == ValidateEURegion(env.region)
  {
    match ValidateEURegion(env.region)
    case Some(e) => Failure(e)
    case None => Success(ToLowerAscii(env.region.value))
  }

  /**
   * The region the getter returns keeps the white space the guard trims
   * away: every character outside A-Z, white space included, comes back as given.
   */
  lemma GetRegionKeepsEdges(env: Env)
    requires GetRegion(env).Success?
    ensures forall i :: 0 <= i < |env.region.value| && !('A' <= env.region.value[i] <= 'Z') ==>
      GetRegion(env).value[i] == env.region.value[i]
  {
  }

  const DEFAULT_DEPLOYMENT: string := "gpt-4o-mini-eu"
  const DEFAULT_MAX_OUTPUT_TOKENS: int := 1024
  const DEFAULT_API_VERSION: string := "2024-02-01"

  /** The value of a variable when it is set, the default otherwise (`value || default`). */
  function OrDefault(v: Option<string>, default: string): (r: string)
    ensures IsSet(v) ==> r == v.value
    ensures !IsSet(v) ==> r == default
    ensures Truthy(default) ==> Truthy(r)
  {
    if IsSet(v) then v.value else default
  }

  /** The deployment name: never empty. */
  function GetModelDeployment(env: Env): (r: string)
    ensures Truthy(r)
    ensures IsSet(env.deployment) ==> r == env.deployment.value
    ensures !IsSet(env.deployment) ==> r == DEFAULT_DEPLOYMENT
  {
    OrDefault(env.deployment, DEFAULT_DEPLOYMENT)
  }

  /** The API version: never empty. */
  function GetApiVersion(env: Env): (r: string)
    ensures Truthy(r)
    ensures IsSet(env.apiVersion) ==> r == env.apiVersion.value
    ensures !IsSet(env.apiVersion) ==> r == DEFAULT_API_VERSION
  {
    OrDefault(env.apiVersion, DEFAULT_API_VERSION)
  }

  /**
   * The output-token limit. Decimal parsing of the variable is the parameter
   * `parseInt`; an unset or empty variable gives 1024 without parsing.
   */
  function GetMaxOutputTokens(env: Env, parseInt: string -> int): (r: int)
    ensures !IsSet(env.maxOutputTokens) ==> r == DEFAULT_MAX_OUTPUT_TOKENS
    ensures IsSet(env.maxOutputTokens) ==> r == parseInt(env.maxOutputTokens.value)
  {
    if IsSet(env.maxOutputTokens) then parseInt(env.maxOutputTokens.value) else DEFAULT_MAX_OUTPUT_TOKENS
  }
}
