/** The three-way value that the library uses both as an abort signal and as a done signal. */
module EndOrErrors {

  /** `False` is the one falsy value, `End` is the constant TRUE, `Error` is built from a message. */
  datatype EndOrError = False | End | Error(message: string) {

    /** The explicit conversion to bool. */
    predicate Truthy() {
      End? || Error?
    }

    /** The update `if (!old) { old = latest; }` that both sticky fields of the checker use. */
    function Sticky(latest: EndOrError): EndOrError {
      if Truthy() then this else latest
    }
  }

  type Abort = EndOrError
  type Done = EndOrError

  datatype Option<+T> = None | Some(value: T)
}
