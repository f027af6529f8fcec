/**
 The one-line text file `~/.kaya_theme.txt`, which both theme modules read
 and write. The file may be missing, may fail to read, or may hold text;
 writes may fail, and every failure is swallowed by the callers.
 */
module ThemeStore {

  datatype Store = Missing | Unreadable | Holds(text: string)

  /** Writing `text`: the file holds exactly `text` afterwards, unless the
      write fails, in which case nothing changes. */
  function Write(st: Store, writable: bool, text: string): (r: Store)
    ensures writable ==> r == Holds(text)
    ensures !writable ==> r == st
  {
    if writable then Holds(text) else st
  }
}
