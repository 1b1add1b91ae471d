/** Option and Result types, and the errors the processing script can raise. */
module Wrappers {

  datatype Option<+T> = None | Some(value: T)

  /** The Python exceptions that abort the script. */
  datatype Error =
    | IndexError                  // `split(...)[k]` with too few fields
    | KeyError(key: string)       // a token missing from the category table
    | FileExists(path: string)    // `os.makedirs` over an existing regular file
    | CannotOpen(path: string)    // `rarfile.RarFile` on something that is not a readable archive
    | IsADirectory(path: string)  // `os.remove` on a directory
    | NotADirectory(path: string) // `os.rmdir` on a regular file
    | NotEmpty(path: string)      // `os.rmdir` on a directory that still holds something
    | NameError(name: string)     // a variable read before any assignment

  datatype Result<+T> = Ok(value: T) | Err(error: Error)
}
