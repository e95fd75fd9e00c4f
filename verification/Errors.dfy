/** The error type of the engine, reduced to the variants that the modelled code produces. */
module Errors {
  datatype KernelError =
    | NodeNotFound(id: string)
    | CycleDetected
    | Timeout(after: nat)
    | Network(reason: string)
    | RateLimited
    | CircuitOpen
    | InvalidInput(reason: string)

  datatype Result<+T> = Ok(value: T) | Err(error: KernelError)
}
