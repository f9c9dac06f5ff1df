/** Types shared by every module: bytes, 64-bit sizes, and the three ways a Rust call can end. */
module Basics {

  type byte = x: int | 0 <= x < 256

  type Bytes = seq<byte>

  /** SHA-256 followed by base64 is a parameter of the model. Collision freedom is a hypothesis where it is used. */
  type Hasher = Bytes -> string

  const U64_LIMIT: int := 0x1_0000_0000_0000_0000

  type u64 = x: int | 0 <= x < U64_LIMIT

  datatype Option<+T> = None | Some(value: T)

  datatype Error =
    | InvalidConfig
    | FileIOError
    | InvalidRange
    | IpfsError
    | JsonError
    | DataUnavailable
    | ChunkInvalid

  /** A call returns a value, returns an error, or panics: an index out of bounds, a division by
      zero, or an overflow of checked 64-bit arithmetic. */
  datatype Outcome<+T> = Ok(value: T) | Err(error: Error) | Panic

  function Min(a: int, b: int): int {
    if a <= b then a else b
  }

  function Max(a: int, b: int): int {
    if a <= b then b else a
  }

  /** The bytes of a list of parts, one after the other. */
  function Flatten(parts: seq<Bytes>): Bytes {
    if parts == [] then [] else Flatten(parts[..|parts| - 1]) + parts[|parts| - 1]
  }

  function TotalLength(parts: seq<Bytes>): nat {
    if parts == [] then 0 else TotalLength(parts[..|parts| - 1]) + |parts[|parts| - 1]|
  }

  lemma {:induction false} FlattenPush(parts: seq<Bytes>, part: Bytes)
    ensures Flatten(parts + [part]) == Flatten(parts) + part
    ensures TotalLength(parts + [part]) == TotalLength(parts) + |part|
  {
    assert (parts + [part])[..|parts|] == parts;
  }

  lemma {:induction false} FlattenLength(parts: seq<Bytes>)
    ensures |Flatten(parts)| == TotalLength(parts)
  {
    if parts != [] {
      FlattenLength(parts[..|parts| - 1]);
    }
  }
}
