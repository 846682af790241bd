/** The outcomes that the modelled functions return. */
module Results {
  datatype RaResult =
    | Success
    | ErrorGeneric
    | ErrorUndefinedParameters
    | ErrorEmptyArea
    | ErrorNullPointer
    | ErrorMalformedMemoryArea
    | ErrorMemoryLabelAlreadyDefined
}
