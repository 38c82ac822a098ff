/** Python's `None` and raised exceptions, as values. */
module Outcomes {

  /** An optional argument or result: Python's `None` or a value. */
  datatype Option<+T> = None | Some(value: T)

  /** The result of an operation that may raise: a value or the error raised. */
  datatype Result<+T, +E> = Success(value: T) | Failure(error: E)

  /** The in-memory view of the files an operation reads and writes: path to text contents. */
  type FileSystem = map<string, string>

  /** What `open(path, 'r')` raises for a path that is not there. */
  datatype IoError = FileNotFound(path: string)

  /** `open(path, 'r').read()`: the contents, or the error a missing file raises. */
  function Read(files: FileSystem, path: string): Result<string, IoError> {
    if path in files then Success(files[path]) else Failure(FileNotFound(path))
  }

  /** `open(path, 'w').write(contents)`: the file at `path` holds `contents` afterwards,
      created if it was not there; no other file changes. */
  function Write(files: FileSystem, path: string, contents: string): (r: FileSystem)
    ensures r.Keys == files.Keys + {path}
    ensures r[path] == contents
    ensures forall p :: p in files && p != path ==> r[p] == files[p]
  {
    files[path := contents]
  }
}
