/** The optional-value type shared by the model: a JavaScript value that may be
    `null` or `undefined` (a missing timer handle, a missing storage entry, a
    failed lookup) is `None`, a present one is `Some`. */
module Options {

  datatype Option<+T> = None | Some(value: T)
}
