/** The absent-or-present value used wherever the activity reads a nullable
    Kotlin value (`String?`, `File?`, `Array<File>?`). */
module Options {

  datatype Option<+T> = None | Some(value: T) {

    /** The value if present, otherwise `default` (Kotlin's `?:`). */
    function GetOr(default: T): T
    {
      match this
      case Some(v) => v
      case None => default
    }
  }
}
