/** How an operation of the weighted queue or its budget ends. */
module QueueErrors {
  datatype Error = InvalidWeight | QueueFull | QueueStopped | PermitReleased | Invariant

  datatype Result = Done | Failed(error: Error)
}
