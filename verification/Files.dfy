/** Files that are replaced as a whole by a rename (SavePrivateFile). */
module Files {
  /** A save works, or it fails before or after the new file is in place. */
  datatype Save = Kept | Lost | Torn

  /** What the file holds afterwards. */
  function Written<T>(save: Save, disk: T, mem: T): T {
    if save.Lost? then disk else mem
  }
}
