/** Reading the Cattle API credentials from the environment (`getEnvOption`, `getCattleVars`). */
module Credentials {
  import opened Wrappers
  import opened GoStrings
  import opened Errors

  /**
   * `getEnvOption(name, required)` applied to the variable's raw value `val` (the result of
   * `os.Getenv`, which is "" for an unset variable). A required variable fails when the raw
   * value is empty; otherwise the value is returned with its surrounding white space trimmed.
   * Emptiness is checked before trimming.
   */
  function GetEnvOption(name: string, required: bool, val: string): (r: Result<string, Failure>)
    ensures r.Err? <==> required && |val| == 0
    ensures r.Err? ==> r.error == MissingEnv(name)
    ensures r.Ok? ==> NonSpace(r.value) == NonSpace(val)
    ensures r.Ok? ==> r.value == [] || (!IsSpace(r.value[0]) && !IsSpace(r.value[|r.value| - 1]))
    ensures r.Ok? ==> exists i, j :: 0 <= i <= j <= |val| && r.value == val[i..j] && AllSpace(val[..i]) && AllSpace(val[j..])
  {
    TrimSpaceKeepsText(val);
    TrimSpaceEnds(val);
    if required && |val| == 0 then Err(MissingEnv(name)) else Ok(TrimSpace(val))
  }

  /** `strings.TrimSpace` keeps one slice of its input, cutting only white space at either end. */
  lemma TrimSpaceEnds(s: string)
    ensures TrimSpace(s) == [] || (!IsSpace(TrimSpace(s)[0]) && !IsSpace(TrimSpace(s)[|TrimSpace(s)| - 1]))
    ensures exists i, j :: 0 <= i <= j <= |s| && TrimSpace(s) == s[i..j] && AllSpace(s[..i]) && AllSpace(s[j..])
  {
    var i, j := TrimSpaceSlice(s);
  }

  /**
   * Because the emptiness test comes before trimming, a required variable holding only
   * white space is accepted, and its value is the empty string.
   */
  lemma EnvOptionBlank(name: string, val: string)
    requires |val| > 0 && AllSpace(val)
    ensures GetEnvOption(name, true, val) == Ok("")
  {
    TrimSpaceEmpty(val);
  }

  /** The raw values of the three variables the client reads. */
  datatype Environment = Environment(cattleUrl: string, cattleAccessKey: string, cattleSecretKey: string)

  /** The resolved connection parameters: base URL, access key and secret key. */
  datatype CattleVars = CattleVars(url: string, accessKey: string, secretKey: string)

  /**
   * `getCattleVars`: the three variables, all required, read in the order CATTLE_URL,
   * CATTLE_ACCESS_KEY, CATTLE_SECRET_KEY; the first empty one stops the client.
   */
  function GetCattleVars(env: Environment): (r: Result<CattleVars, Failure>)
    ensures r.Ok? <==> |env.cattleUrl| > 0 && |env.cattleAccessKey| > 0 && |env.cattleSecretKey| > 0
    ensures |env.cattleUrl| == 0 ==> r == Err(MissingEnv("CATTLE_URL"))
    ensures |env.cattleUrl| > 0 && |env.cattleAccessKey| == 0 ==> r == Err(MissingEnv("CATTLE_ACCESS_KEY"))
    ensures |env.cattleUrl| > 0 && |env.cattleAccessKey| > 0 && |env.cattleSecretKey| == 0 ==>
      r == Err(MissingEnv("CATTLE_SECRET_KEY"))
    ensures r.Ok? ==> r.value == CattleVars(
      TrimSpace(env.cattleUrl), TrimSpace(env.cattleAccessKey), TrimSpace(env.cattleSecretKey))
  {
    match GetEnvOption("CATTLE_URL", true, env.cattleUrl)
    case Err(e) => Err(e)
    case Ok(url) =>
      match GetEnvOption("CATTLE_ACCESS_KEY", true, env.cattleAccessKey)
      case Err(e) => Err(e)
      case Ok(key) =>
        match GetEnvOption("CATTLE_SECRET_KEY", true, env.cattleSecretKey)
        case Err(e) => Err(e)
        case Ok(secret) => Ok(CattleVars(url, key, secret))
  }
}
