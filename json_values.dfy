/** The value model of the JSON-like reader in src/json_reader.rs: a tagged
    union of integers, floats, strings, booleans, objects and arrays, plus the
    two ways a call to `read` can end (a returned pair, or a panic). */
module JsonValues {

  datatype Option<+T> = None | Some(value: T)

  const I32_MIN: int := -0x8000_0000
  const I32_MAX: int := 0x7FFF_FFFF
  const I64_MIN: int := -0x8000_0000_0000_0000
  const I64_MAX: int := 0x7FFF_FFFF_FFFF_FFFF

  /** Rust's `i32`. */
  type Int32 = x: int | I32_MIN <= x <= I32_MAX

  /** `JsonValue`. A float keeps the lexeme it was read from: the decimal to
      binary conversion of `f64` is not part of this model. An object is a
      map, so keys are unique. */
  datatype JsonValue =
    | JsonInt(n: Int32)
    | JsonFloat(lexeme: string)
    | JsonString(s: string)
    | JsonBoolean(b: bool)
    | JsonObject(fields: map<string, JsonValue>)
    | JsonArray(elements: seq<JsonValue>)

  type JsonMap = map<string, JsonValue>

  /** Why a call panics instead of returning. */
  datatype PanicCause =
    | IndexOutOfBounds(index: nat, len: nat)  // `words[index]` past the end of the vector
    | I32Overflow(lexeme: string)             // `parse::<i32>().unwrap()` on an i64 outside i32

  /** A computation that either returns a value or panics. */
  datatype Result<+T> = Ok(value: T) | Panic(cause: PanicCause)

  /** No `"` occurs in a key or a text anywhere in the tree: the reader strips
      every double quote from keys and strings, and float lexemes never hold one. */
  predicate QuoteFree(v: JsonValue)
  {
    match v
    case JsonInt(_) => true
    case JsonFloat(lexeme) => '"' !in lexeme
    case JsonString(s) => '"' !in s
    case JsonBoolean(_) => true
    case JsonObject(fields) => forall k :: k in fields ==> '"' !in k && QuoteFree(fields[k])
    case JsonArray(elements) => forall i :: 0 <= i < |elements| ==> QuoteFree(elements[i])
  }

  predicate QuoteFreeMap(m: JsonMap)
  {
    forall k :: k in m ==> '"' !in k && QuoteFree(m[k])
  }
}
