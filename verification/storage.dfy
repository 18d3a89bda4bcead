/** The storage layer's shared vocabulary: its errors and the key metadata
    it reports. */
module Storage {
  import opened Ssm

  datatype Error =
    | ConfigNotFound                   // storage.ErrConfigNotFound
    | TooManyKeys                      // storage.ErrTooManyKeys
    | Canceled                         // the context's error once it is done
    | UserAborted                      // the deploy command's ErrUserAbortedKeyDeletion
    | PromptFailed                     // the answer to the deletion prompt could not be read
    | Service(cause: ApiError)         // a service error passed on as it is
    | ServiceNotFound(cause: ApiError) // a ParameterNotFound service error joined with ErrConfigNotFound
    | IndexOutOfRange                  // an index-out-of-range runtime panic (batchKeys, filePathToServicePath); nothing recovers it

  /** errors.Is(err, storage.ErrConfigNotFound). */
  predicate IsConfigNotFound(e: Error) {
    e.ConfigNotFound? || e.ServiceNotFound?
  }

  /** A service error as the read paths report it: ParameterNotFound also
      counts as ErrConfigNotFound. */
  function FromRemote(cause: ApiError): (e: Error)
    ensures (e.Service? || e.ServiceNotFound?) && e.cause == cause
    ensures IsConfigNotFound(e) <==> cause.code == "ParameterNotFound"
  {
    if cause.code == "ParameterNotFound" then ServiceNotFound(cause) else Service(cause)
  }

  /** One key of a service path with its value and what the service
      reports about it. */
  datatype KeyMetadata = KeyMetadata(key: string, value: string, metadata: ParameterMetadata)
}
