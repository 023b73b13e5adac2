/** Option and Result values standing for JavaScript's `undefined`/`null`
    and for the TypeErrors the extension can throw. */
module Results {

  datatype Option<+T> = None | Some(value: T)

  datatype Result<+T, +E> = Success(value: T) | Failure(error: E)

  /** The exceptions the extension can raise while building its menu. */
  datatype BuildError =
    | AppListUndefined  // `appList.push` on the undefined list of a nested directory
    | UserMenuNull      // a member of the `null` user menu is read
}
