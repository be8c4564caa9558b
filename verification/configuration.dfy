/** Configuration record of the tool and its post-construction
    normalisation (config.py).  Loading from the environment is not
    modelled; a `Config` value is what the dataclass constructor receives. */
module Configuration {
  import opened Results

  const DefaultApiUrl: string := "http://localhost:14243"
  const DefaultTimeout: real := 30.0
  const DefaultTimeoutHealth: real := 5.0

  /** Extracted text of at most this many characters is not a message. */
  const MinContentLength: nat := 5
  /** Cleaned message content is cut to this many characters. */
  const MaxContentLength: nat := 15000

  const ValidSessionSources: set<string> := {"auto", "claude", "codex"}

  datatype Config = Config(
    apiUrl: string,
    authToken: string,
    timeout: real,
    timeoutHealth: real,
    projectPath: Option<string>,
    maxMessages: int,
    sessionSource: string)

  /** What every constructed `Config` satisfies. */
  predicate Normalized(c: Config) {
    && c.maxMessages >= 0
    && c.sessionSource in ValidSessionSources
    && c.timeout > 0.0
    && c.timeoutHealth > 0.0
  }

  /** The `__post_init__` repair of out-of-range fields. */
  function Normalize(c: Config): (r: Config)
    ensures Normalized(r)
    ensures r.apiUrl == c.apiUrl && r.authToken == c.authToken && r.projectPath == c.projectPath
    ensures c.maxMessages >= 0 ==> r.maxMessages == c.maxMessages
    ensures c.maxMessages < 0 ==> r.maxMessages == 0
    ensures c.sessionSource in ValidSessionSources ==> r.sessionSource == c.sessionSource
    ensures c.sessionSource !in ValidSessionSources ==> r.sessionSource == "auto"
    ensures c.timeout > 0.0 ==> r.timeout == c.timeout
    ensures c.timeout <= 0.0 ==> r.timeout == DefaultTimeout
    ensures c.timeoutHealth > 0.0 ==> r.timeoutHealth == c.timeoutHealth
    ensures c.timeoutHealth <= 0.0 ==> r.timeoutHealth == DefaultTimeoutHealth
  {
    var c1 := if c.maxMessages < 0 then c.(maxMessages := 0) else c;
    var c2 := if c1.sessionSource !in ValidSessionSources then c1.(sessionSource := "auto") else c1;
    var c3 := if c2.timeout <= 0.0 then c2.(timeout := DefaultTimeout) else c2;
    if c3.timeoutHealth <= 0.0 then c3.(timeoutHealth := DefaultTimeoutHealth) else c3
  }

  /** Normalisation changes exactly the values that were out of range:
      a configuration is left alone iff it is already normalised, so
      applying it twice is applying it once. */
  lemma NormalizeFixpoint(c: Config)
    ensures Normalize(c) == c <==> Normalized(c)
    ensures Normalize(Normalize(c)) == Normalize(c)
  {
  }

  /** Each field is repaired on its own: two configurations that agree on
      a field still agree on it after normalisation, whatever their other
      fields hold. */
  lemma NormalizeFieldwise(c: Config, d: Config)
    ensures c.maxMessages == d.maxMessages ==> Normalize(c).maxMessages == Normalize(d).maxMessages
    ensures c.sessionSource == d.sessionSource ==> Normalize(c).sessionSource == Normalize(d).sessionSource
    ensures c.timeout == d.timeout ==> Normalize(c).timeout == Normalize(d).timeout
    ensures c.timeoutHealth == d.timeoutHealth ==> Normalize(c).timeoutHealth == Normalize(d).timeoutHealth
  {
  }
}
