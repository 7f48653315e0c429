/** Option and the error-carrying Result used by every operation of the engine. */
module Wrappers {

  /** An optional value (Rust's `Option`). */
  datatype Option<+T> = None | Some(value: T)

  /**
   * The failures of the engine. `TellurException` itself is not part of this
   * model; every `panic!`, `unwrap()` on `None` and out-of-range index of the
   * source becomes one of these named, recoverable outcomes.
   */
  datatype Error =
    | ArrayTypeInconsistent             // array elements infer to different types
    | ArityMismatch                     // a primitive node got the wrong number of arguments
    | TypeMismatch                      // a primitive node got a value of the wrong variant
    | UnknownParameter(name: string)    // a graph parameter name that is not declared
    | UnknownNode(id: nat)              // a node id that is not in the graph
    | UnknownOutput(id: nat, outputName: string) // a return name the source node does not declare
    | UnboundParameter(param: string)   // a node parameter with no wiring input
    | UnboundReturn(ret: string)        // a declared graph return with no wiring input
    | MissingArgument(index: nat)       // a caller argument position beyond the argument list
    | MissingOutput(position: nat, outputIndex: nat) // a node output the node did not produce
    | Stalled                           // nothing runnable but outputs unmet
    | OutputAsSource                    // an edge whose source is the Output component
    | InputAsDestination                // an edge whose destination is the Input component
    | InputIsNotSettable                // `set_value` on the Input component
    | InputConnected                    // `set_value` on an input that is wired
    | MissingInput(key: string)         // `set_value` on an input that has no entry
    | IdsExhausted                      // no free node id below u32::MAX

  /** Success with a value, or one of the errors above (Rust's `Result` / a panic). */
  datatype Result<+T> = Ok(value: T) | Err(error: Error) {
    predicate IsFailure() {
      Err?
    }

    function PropagateFailure<U>(): Result<U>
      requires Err?
    {
      Err(error)
    }

    function Extract(): T
      requires Ok?
    {
      value
    }
  }
}
