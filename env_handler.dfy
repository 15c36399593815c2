/**
 * `env_custom_value_or_none` (library_service_api/env_handler.py): a setting
 * whose value was left equal to its own name counts as not configured.
 */
module EnvHandler {
  import opened Wrappers

  /** A lookup of a variable the environment does not define. */
  datatype EnvError = KeyError(variable: string)

  function EnvCustomValueOrNone(environ: map<string, string>, variable: string): (r: Result<Option<string>, EnvError>)
    ensures variable !in environ <==> r == Err(KeyError(variable))
    ensures variable in environ ==> (r == Ok(None) <==> environ[variable] == variable)
    ensures variable in environ && environ[variable] != variable ==> r == Ok(Some(environ[variable]))
    ensures r != Ok(Some(variable))
  {
    if variable !in environ then Err(KeyError(variable))
    else
      var value := environ[variable];
      if variable == value then Ok(None) else Ok(Some(value))
  }
}
