/** Definitions shared by every module of the model. */
module Common {

  /** A value that may be absent: a Go nil, a missing map key, a file that does not exist. */
  datatype Option<+T> = None | Some(value: T)

  /** A Go (value, error) pair. */
  datatype Result<+T> = Ok(value: T) | Err(message: string)

  /** A cleaned path, as its sequence of segments; [] is "/" (or "." for a relative path). */
  type Path = seq<string>

  /** Whether one more file operation succeeds; it must if everything `works`. */
  method Performed(works: bool) returns (done: bool)
    ensures works ==> done
  {
    done := *;
    done := done || works;
  }
}
