/** Errors and replies of the chat client, shared by the coalescing and retry models. */
module ChatErrors {
  import opened Wrappers

  /** The part of a transport error that the client looks at. */
  datatype HttpError = HttpError(isTimeout: bool, isConnect: bool, status: Option<nat>)

  datatype AiError = Cancelled | Timeout | Http(error: HttpError) | Other(message: string)

  datatype Reply = Ok(text: string) | Err(error: AiError)
}
