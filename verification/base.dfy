/** Shared vocabulary: nullable values, results carrying .NET-style exceptions,
    and the fixed-width integer ranges the C# code relies on. */
module Base {

  /** A C# reference that may be null. */
  datatype Option<+T> = None | Some(value: T) {
    function GetOr(default: T): T {
      match this
      case Some(v) => v
      case None => default
    }
  }

  /** The exceptions the modelled code raises, reduced to what callers can observe. */
  datatype Exn =
    | ArgumentError(reason: string)
    | FormatError(reason: string)
    | DnsError(host: string)
    | NullReference
    | InvalidOperation(reason: string)
    | KeyNotFound(key: string)
    | IOError(reason: string, code: int)
    | IOErrorWith(reason: string, inner: Option<Exn>)
    | FileNotFound(path: string)
    | TransportError(reason: string)
    | WebError(reason: string, inner: Option<Exn>)
    | GeneralError(reason: string)

  /** Either a value or the exception that replaced it. */
  datatype Result<+T> = Ok(value: T) | Err(error: Exn) {
    predicate IsFailure() { Err? }
    function PropagateFailure<U>(): Result<U>
      requires Err?
    {
      Err(error)
    }
    function Extract(): T
      requires Ok?
    {
      value
    }
  }

  const Int32Min: int := -0x8000_0000
  const Int32Max: int := 0x7FFF_FFFF

  /** C# `int`. */
  type Int32 = x: int | Int32Min <= x <= Int32Max

  /** C# `ushort`. */
  type UInt16 = x: int | 0 <= x < 0x1_0000

  /** C# `byte`. */
  type Byte = x: int | 0 <= x < 256

  /** Unchecked `x + 1` on a C# `int`: wraps from Int32Max to Int32Min. */
  function Inc32(x: Int32): (r: Int32)
    ensures x < Int32Max ==> r == x + 1
    ensures x == Int32Max ==> r == Int32Min
  {
    if x == Int32Max then Int32Min else x + 1
  }
}
