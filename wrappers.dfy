/** Option and Result, with the failure-compatible members that `:-` needs. */
module Wrappers {

  /** A value that may be absent: a C# reference that may be null, or an XML attribute that may be missing. */
  datatype Option<+T> = None | Some(value: T) {
    function GetOr(default: T): T {
      match this
      case Some(v) => v
      case None => default
    }
  }

  /** The outcome of an operation that throws in the original program. */
  datatype Result<+T, +E> = Ok(value: T) | Err(error: E) {
    predicate IsFailure() {
      Err?
    }

    function PropagateFailure<U>(): Result<U, E>
      requires Err?
    {
      Err(error)
    }

    function Extract(): T
      requires Ok?
    {
      value
    }
  }

  /** The outcome of an operation that only changes state, or throws. */
  datatype Outcome<+E> = Pass | Fail(error: E) {
    predicate IsFailure() {
      Fail?
    }

    function PropagateFailure(): Outcome<E>
      requires Fail?
    {
      this
    }
  }
}

/** The exceptions the modelled code can raise, named after the condition that raises them. */
module Errors {

  datatype Error =
    | NullArgument(name: string)          // ArgumentNullException from an explicit guard
    | NullReference(what: string)         // NullReferenceException: a missing attribute or property read through null
    | MultipleElements(element: string)   // InvalidOperationException from Single()/SingleOrDefault() on more than one match
    | MissingElement(element: string)     // InvalidOperationException from Single()/First()/Last() on no match
    | DuplicateKey(key: string)           // ArgumentException from Dictionary.Add
    | FileNotFound(path: string)          // FileNotFoundException from File.OpenRead
    | EmptyPath                           // ArgumentException from directory enumeration of ""
}
