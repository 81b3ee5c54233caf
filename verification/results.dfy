/** Failure-carrying wrappers and the run's failure kinds, shared by the scraper model. */
module Results {

  /** A value that may be absent (a missing file, an element without an attribute). */
  datatype Option<+T> = None | Some(value: T)

  /** The outcome of a step that either produces a value or raises an error. */
  datatype Result<+T, +E> = Ok(value: T) | Err(error: E)

  /** Why a run dies: an uncaught exception, or a result page that never settles. */
  datatype Failure =
    | CountMissing              // no element matches the count selector (`total_items[0]`)
    | CountNotNumeric           // `int(text)` raises
    | ZeroPageSize              // `// listings_per_page` with a zero page size
    | Unsettled(page: nat)      // the element count of this page never settles: the program polls forever
    | CheckpointKind(name: string)  // a checkpoint file holds an object of the wrong kind
}
