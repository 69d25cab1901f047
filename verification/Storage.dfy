/** One file of the configuration directory; a write either replaces it or fails and leaves it alone. */
module Storage {
  import opened Common

  class StoredFile<T> {
    var content: Option<T>

    constructor ()
      ensures content == None
    {
      content := None;
    }

    method Write(data: T, writable: bool) returns (ok: bool)
      modifies this
      ensures ok == writable
      ensures content == if writable then Some(data) else old(content)
    {
      if writable {
        content := Some(data);
      }
      ok := writable;
    }
  }
}
