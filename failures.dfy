/** The ways the data preparation can stop with an exception instead of returning graphs. */
module Failures {

  datatype Failure =
    | EmptyTable               // maximum of a zero-size id array when computing max_n_id
    | NoSplitCandidates        // `min` over an empty dict of split scores (a single day)
    | EmptyConcatenation       // `torch.cat` of an empty list (a split range without any day)
    | NotAGraph                // heterogeneous conversion asked of an artifact that is not a graph

  datatype Result<+T> = Ok(value: T) | Err(failure: Failure)
}
