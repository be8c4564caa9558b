/** The canonical message of a parsed transcript (the dicts that
    `parse_session_file` accumulates). */
module Transcript {
  import opened Results
  import opened JsonData

  datatype Role = User | Assistant

  /** `timestamp` is passed through from the transcript line undecoded;
      `JNull` when the line had none. */
  datatype Msg = Msg(role: Role, content: string, timestamp: Json)

  /** The JSON spelling of a role. */
  function RoleName(r: Role): (name: string)
    ensures name == "user" || name == "assistant"
  {
    match r
    case User => "user"
    case Assistant => "assistant"
  }

  /** Reads a role from its JSON spelling; anything else is not a role. */
  function RoleOf(j: Json): (r: Option<Role>)
    ensures r.Some? <==> j == JStr("user") || j == JStr("assistant")
    ensures r.Some? ==> j == JStr(RoleName(r.value))
  {
    if j == JStr("user") then Some(User)
    else if j == JStr("assistant") then Some(Assistant)
    else None
  }

  function CountRole(ms: seq<Msg>, role: Role): (n: nat)
    ensures n <= |ms|
  {
    if |ms| == 0 then 0 else (if ms[0].role == role then 1 else 0) + CountRole(ms[1..], role)
  }
}
