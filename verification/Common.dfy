/** Vocabulary shared by the models: outcomes, machine words, instants and the string predicates the source leans on. */
module Common {
  datatype Option<+T> = None | Some(value: T)

  datatype Result<+T, +E> = Ok(value: T) | Err(error: E)

  const MAX_UINT64: int := 0xFFFF_FFFF_FFFF_FFFF

  /** An unsigned 64-bit word. Arithmetic on it is written out where the source can overflow. */
  type Uint64 = x: int | 0 <= x <= MAX_UINT64

  /** A point in time, in nanoseconds. 0 is the zero time that `IsZero` recognises. */
  type Instant = int

  /** Unicode white space, the set trimmed by the source's string trimming. */
  predicate IsSpace(c: char) {
    || c == ' ' || '\t' <= c <= '\r' || c == '\U{85}' || c == '\U{A0}' || c == '\U{1680}'
    || '\U{2000}' <= c <= '\U{200A}' || c == '\U{2028}' || c == '\U{2029}' || c == '\U{202F}' || c == '\U{205F}'
    || c == '\U{3000}'
  }

  /** Trimming `s` leaves nothing. */
  predicate Blank(s: string) {
    forall i | 0 <= i < |s| :: IsSpace(s[i])
  }

  /** Trimming `s` leaves `s`. */
  predicate Trimmed(s: string) {
    s != "" ==> !IsSpace(s[0]) && !IsSpace(s[|s| - 1])
  }

  predicate ContainsAny(s: string, chars: set<char>) {
    exists i | 0 <= i < |s| :: s[i] in chars
  }

  function Utf8Width(c: char): nat {
    if c < '\U{80}' then 1 else if c < '\U{800}' then 2 else if c < '\U{10000}' then 3 else 4
  }

  /** Number of bytes of `s` in UTF-8, which is what the source's length limits count. */
  function Utf8Length(s: string): nat {
    if s == "" then 0 else Utf8Width(s[0]) + Utf8Length(s[1..])
  }

  /** A non-empty, trimmed, single-line identifier of at most 256 bytes. */
  predicate ValidIdentifier(s: string) {
    s != "" && Trimmed(s) && Utf8Length(s) <= 256 && !ContainsAny(s, {'\r', '\n'})
  }

  /** A path relative to some fixed directory, with `/` between its parts. */
  type Path = string

  /** `inner` lies strictly below `outer`. */
  predicate Below(inner: Path, outer: Path) {
    |inner| > |outer| + 1 && inner[..|outer| + 1] == outer + "/"
  }

  /** The pieces of `s` between separators. */
  function Split(s: string, separator: char): (parts: seq<string>)
    ensures |parts| > 0
  {
    if s == "" then [""]
    else
      var rest := Split(s[1..], separator);
      if s[0] == separator then [""] + rest else [[s[0]] + rest[0]] + rest[1..]
  }
}
