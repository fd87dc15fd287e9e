/**
 * The error enum of the first generation (Spitfire/Classes/Errors.swift),
 * thrown by `makeVideo` and by the pixel-buffer `append` extension.
 */
module LegacyErrors {
  datatype SpitfireError =
    | ImageArrayEmpty
    | InvalidFramerate(message: string)
    | ImageDimensionsMatchFailure
    | ImageDimensionsMultiplierFailure(message: string)
    | VideoWriterFailure
    | PixelBufferPointeeFailure
    | InvalidStatusCode(code: int)
    | PixelBufferApendFailure
}

/**
 * The error enum of the delegate-based generation
 * (Spitfire/Classes/SpitfireError.swift), reported through
 * `videoFailed(error:)` by `Writer`. Its cases keep the source's
 * lower-case names.
 */
module WriterErrors {
  datatype SpitfireError =
    | imageArrayEmpty
    | invalidFramerate(message: string)
    | imageDimensionsMatchFailure
    | imageDimensionsMultiplierFailure(message: string)
    | videoWriterFailure
    | pixelBufferPointeeFailure
    | invalidStatusCode(code: int)
    | pixelBufferApendFailure
}
