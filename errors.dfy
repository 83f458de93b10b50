/** The error values of the older pipeline (src/error.rs). A message that the
    source formats from a fixed text becomes a constructor of its own, so
    that contracts can say which check failed; a message that carries a name
    keeps the name. */
module Errors {

  /** The reason carried by `DataValueExportFailed`. */
  datatype ExportFailure =
    | TooLarge            // an unsigned source above the target's maximum
    | OutOfRange          // a signed or float source outside the target's range
    | NotAnInteger        // a float with a fractional part for an integer target
    | StringToScalar      // "Cannot convert string to scalar type."
    | StringExpected      // "String expected for string type."
    | SingleExpected      // "Single value expected for scalar type."
    | LargerThanDefined   // "Array/string is larger than defined size."
    | SmallerThanDefined  // "... smaller than defined size (strict SIZE)."
    | StringsNeedU8       // "Strings should have type u8."
    | ColumnMismatch      // "2D array column count mismatch."
    | TooManyRows         // "2D array row count greater than defined size."
    | TooFewRows          // "2D array row count smaller than defined size (strict SIZE)."
    | TwoDLiteral         // "2D arrays within the layout file are not supported."
    | BothSizeKeys        // "Use either 'size' or 'SIZE', not both."
    | SizeOverflow        // "Array size overflow": elements times width beyond usize
    | ElementCountOverflow  // "2D size overflow": rows times columns beyond usize
    | ByteCountOverflow   // "2D byte count overflow": elements times width beyond usize
    | UnsupportedType(typeName: string)    // "unsupported data type: " and the name
    | NotConvertibleTo(typeName: string)   // the value has no reading as the named type

  /** The reason carried by `HexOutputError`. */
  datatype HexFailure =
    | LongerThanBlock               // "Bytestream length exceeds block length."
    | CrcBeforeStart                // "CRC address before block start."
    | CrcOverlapsPayload            // "CRC overlaps with payload."
    | InvalidCrcLocation(keyword: string)
    | CrcOverrunsBlock              // "CRC location would overrun block."
    | AddBytesFailed                // "Failed to add bytes": a range overlaps data already placed

  datatype NvmError =
    | FileError(message: string)
    | FailedToExtract(what: string)
    | RecursionFailed(what: string)
    | DataValueExportFailed(why: ExportFailure)
    | RetrievalError(message: string)
    | HexOutputError(failure: HexFailure)
}
