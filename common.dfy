/** Failure-carrying wrappers shared by every module of the model. */
module Common {

  /** A value that may be absent: JavaScript's `undefined` / `null` results. */
  datatype Option<T> = None | Some(value: T) {
    function GetOr(default: T): T {
      match this
      case Some(v) => v
      case None => default
    }
  }

  /** The exceptions the modelled code can raise. */
  datatype Error =
    | TypeError            // a property read on `undefined` (`Object.values(undefined)`, `undefined.length`)
    | UnsupportedIndexType // interceptorv2.ts getTriangleVertices: neither Uint8, Uint16 nor Uint32 indices
    | NoLinesProvided      // centroid.ts findCenterOrNearestPoint on an empty list

  /** The outcome of an operation that either returns a value or throws. */
  datatype Result<T> = Ok(value: T) | Err(error: Error)
}
