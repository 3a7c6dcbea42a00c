/** An optional value, for the places where the application uses `null`
    or an absent field (the e-mail of a new post, the post shown in the
    lightbox, a value missing from browser storage). */
module Optional {

  datatype Option<+T> = None | Some(value: T) {

    /** The wrapped value, or `default` when there is none. */
    function GetOr(default: T): T {
      match this
      case Some(v) => v
      case None => default
    }
  }
}
