/** JSON/YAML documents as trees, and the two result types the other modules share. */
module Values {

  datatype Option<+T> = None | Some(value: T)

  datatype Result<+T, +E> = Ok(value: T) | Err(error: E)

  /** A field of a document: absent or null, present with the wrong kind of value, or as expected. */
  datatype Field<+T> = Absent | Wrong | Given(value: T)

  /** A parsed YAML or JSON document. Dumping and loading are the identity on these trees,
      and the insertion order of object keys is not kept. */
  datatype Value =
    | Null
    | Bool(b: bool)
    | Num(n: int)
    | Str(s: string)
    | List(items: seq<Value>)
    | Dict(m: map<string, Value>)
  {
    /** Python truthiness. */
    predicate Truthy() {
      match this
      case Null => false
      case Bool(b) => b
      case Num(n) => n != 0
      case Str(s) => s != ""
      case List(items) => items != []
      case Dict(m) => m != map[]
    }

    /** `value in (None, "")`, the source's test for an absent field. */
    predicate Blank() {
      this == Null || this == Str("")
    }
  }

  /** `payload.get(key)`. */
  function Get(m: map<string, Value>, key: string): Value {
    if key in m then m[key] else Null
  }

  // ---------------------------------------------------------------- text

  predicate IsSpace(c: char) {
    c == ' ' || c == '\t' || c == '\n' || c == '\r'
  }

  function TrimLeft(s: string): (r: string)
    ensures r == "" || !IsSpace(r[0])
    ensures s == "" || IsSpace(s[0]) || r == s
  {
    if s != "" && IsSpace(s[0]) then TrimLeft(s[1..]) else s
  }

  function TrimRight(s: string): (r: string)
    ensures r <= s
    ensures r == "" || !IsSpace(r[|r| - 1])
    ensures s == "" || IsSpace(s[|s| - 1]) || r == s
  {
    if s != "" && IsSpace(s[|s| - 1]) then TrimRight(s[..|s| - 1]) else s
  }

  /** `text.strip()`. */
  function Trim(s: string): (r: string)
    ensures Trimmed(r)
    ensures Trimmed(s) ==> r == s
  {
    TrimRight(TrimLeft(s))
  }

  predicate Trimmed(s: string) {
    s == "" || (!IsSpace(s[0]) && !IsSpace(s[|s| - 1]))
  }

  /** `text.lower()` on ASCII letters. */
  function Lower(s: string): (r: string)
    ensures |r| == |s|
  {
    seq(|s|, i requires 0 <= i < |s| => if 'A' <= s[i] <= 'Z' then s[i] - 'A' + 'a' else s[i])
  }
}
