/** The absent-or-present value used for lookups that may miss
    (`Array.prototype.find`, `undefined` results, failed parses). */
module Optional {

  datatype Option<+T> = None | Some(value: T) {

    /** The wrapped value, or `default` when there is none (JavaScript's `??`). */
    function GetOr(default: T): T {
      match this
      case Some(v) => v
      case None => default
    }
  }
}
