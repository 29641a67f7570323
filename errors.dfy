/**
 * The errors of the core, as tags. A wrapping error (`fmt.Errorf("...: %w", err)`)
 * carries its cause; the text of each message is not modelled.
 */
module Errors {

  datatype Error =
    // errors raised by collaborators the model does not see (ffmpeg, the file system, the driver)
    | External(tag: string)
    // ctx.Err() of a cancelled context
    | Cancelled
    // repository.ErrVideoNotFound
    | VideoNotFound
    // the insert of a row whose id is already in the table
    | DuplicateKey
    // the database's refusal of a negative OFFSET
    | NegativeOffset
    // wrappers of the repository
    | CreateFailed(cause: Error)
    | ListFailed(cause: Error)
    // wrappers of the conversion service
    | UpdateProcessingFailed(cause: Error)
    | ConversionFailed(cause: Error)
    | StartPoolFailed(cause: Error)
    // wrappers of the ffmpeg service
    | OperationCancelled(cause: Error)
    | CreateDirFailed(cause: Error)
    | FFmpegFailed(cause: Error)
    | ListFilesFailed(cause: Error)
    // state errors of the worker pool and of the conversion service
    | PoolNotIdle
    | PoolNotRunning
    | AlreadyRunning
    | NotRunning

  /** `errors.Is(e, cause)`: `cause` is `e` or sits somewhere in its chain of wrapped causes. */
  predicate Wraps(e: Error, cause: Error)
  {
    e == cause ||
    match e
    case CreateFailed(c) => Wraps(c, cause)
    case ListFailed(c) => Wraps(c, cause)
    case UpdateProcessingFailed(c) => Wraps(c, cause)
    case ConversionFailed(c) => Wraps(c, cause)
    case StartPoolFailed(c) => Wraps(c, cause)
    case OperationCancelled(c) => Wraps(c, cause)
    case CreateDirFailed(c) => Wraps(c, cause)
    case FFmpegFailed(c) => Wraps(c, cause)
    case ListFilesFailed(c) => Wraps(c, cause)
    case _ => false
  }
}
