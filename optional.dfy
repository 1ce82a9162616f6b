/** An optional value: `None` stands for JavaScript's `undefined`/`null`
    (or, for a call, "nothing came back"), `Some(v)` for a present value. */
module Optional {

  datatype Option<+T> = None | Some(value: T) {

    /** The value, or `default` when there is none (JavaScript's `??`). */
    function GetOr(default: T): T {
      match this
      case Some(v) => v
      case None => default
    }
  }
}
