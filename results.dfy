/** Option and Result wrappers, and the exceptions the extractor can raise. */
module Results {

  datatype Option<+T> = None | Some(value: T)

  /** The Python exceptions that reach the model, by kind. */
  datatype Error =
    | AttributeError        // `.group()` called on a failed `re.match`
    | IndexError            // a list position past the end
    | KeyError              // `DataFrame.drop` of a row label that is absent
    | ValueError            // `DataFrame.set_axis` with the wrong number of names
    | ElementLookupError    // the PDF library found no element, several, or no such page
    | ExtractorError        // the table extractor raised

  datatype Result<+T> = Ok(value: T) | Err(error: Error)
}
