/** Vocabulary shared by the shop server and the QR form: optional values,
    JSON files as the server finds them on disk, HTTP-style responses, and
    the two Python idioms the code leans on (`dict.get` with a default and
    the slice `s[:n]`). */
module Common {

  datatype Option<+T> = None | Some(value: T)

  /** A JSON file as seen by a reader: not there, there but not parseable,
      or parsed into a value. */
  datatype JsonFile<+T> = Missing | Malformed | Parsed(value: T)

  /** The lenient read used for every list file: a missing or malformed
      file reads as the empty list. */
  function ReadList<T>(f: JsonFile<seq<T>>): seq<T>
  {
    if f.Parsed? then f.value else []
  }

  /** Python's `d.get(key, fallback)` on a string-valued dictionary. */
  function GetOr(d: map<string, string>, key: string, fallback: string): string
  {
    if key in d then d[key] else fallback
  }

  /** Python's `s[:n]`: the first `n` characters, or all of `s` if shorter. */
  function Prefix(s: string, n: nat): (r: string)
    ensures |r| == if |s| <= n then |s| else n
    ensures r <= s
  {
    if |s| <= n then s else s[..n]
  }

  /** What a JSON endpoint answers: `{message, <id>}` with status 200, or
      `{error}` with the given status code. */
  datatype Response = Ok(message: string, id: string) | Err(code: nat, error: string)

  /** A response together with the stored state after the request. */
  datatype Step<S> = Step(response: Response, state: S)
}
