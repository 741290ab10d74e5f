/** The JavaScript `null` / "not found" results of the stores and helpers. */
module Optional {
  datatype Option<T> = None | Some(value: T)
}
