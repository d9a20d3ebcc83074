/** An optional value: the model's stand-in for a nullable field (`Song | null`,
    an absent `user`, a missing `display_name`). */
module Options {

  datatype Option<+T> = None | Some(value: T)
}
