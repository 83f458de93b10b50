/** The error values of the later layout builder (src/layout/errors.rs). A
    data-value failure carries the reason as in the older pipeline; a
    failure of the data sheet is carried as it is. */
module LayoutErrors {
  import opened Errors
  import Variant

  datatype LayoutError =
    | FileError(message: string)
    | BlockNotFound(block: string)
    | DataValueExportFailed(why: ExportFailure)
    | InvalidBlockArgument(message: string)
    | NoBlocksProvided
    | MissingDataSheet(field: string)
    | InField(field: string, source: LayoutError)
    | VariantFailure(error: Variant.VariantError)
}
