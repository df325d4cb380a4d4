/** Values shared by every part of the model: optional values, results that
    carry a Python exception, and the handful of dynamically typed argument
    shapes that the service inspects with `isinstance`. */
module Base {

  datatype Option<T> = None | Some(value: T)

  datatype Result<T, E> = Ok(value: T) | Err(error: E)

  /** One octet of an uploaded payload. */
  type byte = x: int | 0 <= x < 256

  type Bytes = seq<byte>

  /** The exception classes the modelled code distinguishes by `except`. */
  datatype ExceptionKind =
    | RuntimeError       // includes torch's CUDA out-of-memory error
    | ValueError         // raised for an unsupported file extension
    | VectorStoreError   // raised by the embedding helpers of the vector store
    | OtherError         // anything else an external library may raise

  datatype Exception = Exception(kind: ExceptionKind, message: string)

  /** A Python argument as seen by a callee that checks its type at run time. */
  datatype PyValue =
    | PyStr(s: string)
    | PyBytes(data: Bytes)
    | PyByteArray(data: Bytes)
    | PyInt(i: int)
    | PyNone
    | PyOther            // a truthy object of some other class

  /** Python truthiness of an argument (`if not x: ...`). */
  predicate Truthy(v: PyValue) {
    match v
    case PyStr(s) => s != []
    case PyBytes(d) => d != []
    case PyByteArray(d) => d != []
    case PyInt(i) => i != 0
    case PyNone => false
    case PyOther => true
  }

  function Min(a: int, b: int): int {
    if a <= b then a else b
  }
}
