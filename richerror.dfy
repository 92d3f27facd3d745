/**
  The structured error of pkg/richerror, reduced to what the modelled code
  sets: the operation name, the kind and the message. The richerror package
  itself is not part of this model.
 */
module RichError {

  datatype Kind = KindInvalid | KindUnexpected

  /** `message` is "" when the code sets none. */
  datatype RichError = RichError(op: string, kind: Kind, message: string)
}
