/** Small vocabulary shared by every module of the model: optional values,
    settled promises, bytes and digests. */
module Common {

  /** A JavaScript value that may be `undefined`/`null`. */
  datatype Option<T> = None | Some(value: T) {
    function GetOr(default: T): T {
      match this
      case Some(v) => v
      case None => default
    }
  }

  /** How an awaited operation settled: resolved with a value, or rejected
      with an error message. */
  datatype Outcome<T> = Ok(value: T) | Err(error: string)

  /** The unit value of an operation that resolves with nothing. */
  datatype Unit = Unit

  /** The fields of the user's configuration object the core reads. */
  datatype Config = Config(
    sourceDirectory: string,
    targetDirectory: string,
    excludeDirectories: Option<seq<string>>,
    excludePatterns: Option<seq<string>>,
    parallelCopies: Option<int>,
    rateLimit: Option<int>)

  newtype Byte = x: int | 0 <= x < 256

  type Bytes = seq<Byte>

  /** A hexadecimal digest, as `crypto.createHash(...).digest('hex')` returns. */
  type Digest = string

  /** A content hash (MD5 in the source), left uninterpreted. */
  type Hasher = Bytes -> Digest

  function Min(a: int, b: int): int { if a <= b then a else b }

  function Max(a: int, b: int): int { if a <= b then b else a }

  function Pow2(n: nat): (p: nat)
    ensures p >= 1
  {
    if n == 0 then 1 else 2 * Pow2(n - 1)
  }
}
