/** The errors of the modelled operations. */
module ChdErrors {
  datatype ChdError =
    | InvalidParameter
    | InvalidData
    | RequiresParent
    | ReadError
    | CodecError
    | HunkOutOfRange
    | DecompressionError
    | OtherError(code: nat)

  datatype Outcome = Ok | Failed(error: ChdError)
}
