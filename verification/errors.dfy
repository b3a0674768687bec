/**
  The engine's exceptions (memstate/exceptions.py) as values: every operation that can raise
  returns a Result instead.
 */
module Errors {

  datatype Error =
    | ValidationFailed   // the registered model rejected the payload
    | ConflictError      // an immutable singleton already exists
    | HookError(hook: nat)  // the hook at this position in the hook list raised
    | NotFound           // MemoryStoreError("Fact not found")
    | NotRegistered      // commit_model of a class no type name is registered for
    | InvalidPatch       // update with a "payload" entry dict.update refuses

  datatype Result<T> = Ok(value: T) | Err(error: Error)
}
