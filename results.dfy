/** Failure-carrying values for the two Python exceptions the recommender can raise. */
module Results {

  /** The exceptions the pipeline can raise on degenerate data. */
  datatype Error =
    | ZeroDivisionError  // a similarity index over two empty keyword lists
    | IndexError         // a fixed ten-step copy from a list shorter than ten

  datatype Result<+T> = Success(value: T) | Failure(error: Error)
}
