/** Failure-carrying results shared by the node and reconciler modules. */
module Errors {

  /** Go's nil-or-error return, where only the error part matters. */
  datatype Option<+T> = None | Some(value: T)

  /** A Go `(value, error)` pair where exactly one half is meaningful. */
  datatype Result<+T> = Success(value: T) | Failure(error: Error)

  /** The errors this model distinguishes. */
  datatype Error =
    | EmptyPool                          // no hypervisor to sample from
    | PortExhausted(hypervisorName: string) // no free port left on that hypervisor
}
