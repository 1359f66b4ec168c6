/** Swift optionals (`T?`) as a Dafny datatype. */
module Options {

  /** `None` stands for Swift's `nil`. */
  datatype Option<+T> = None | Some(value: T) {

    /** Swift's `self ?? fallback`. */
    function OrElse(fallback: T): T {
      match this
      case Some(v) => v
      case None => fallback
    }
  }
}
