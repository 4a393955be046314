/** Shared vocabulary of the placement engine: optional values, results and
    the failures the engine reports (its exceptions). */
module Common {

  /** A filesystem path as its sequence of components; `[]` is the root. */
  type Path = seq<string>

  datatype Option<+T> = None | Some(value: T)

  datatype Result<+T> = Ok(value: T) | Err(error: Error)

  /** Every way a run can stop. Python raises these as exceptions; the model
      returns them. */
  datatype Error =
    | TooManyFiles(found: nat, maximum: int)   // more candidates than a truthy max_files
    | TooFewFiles(found: nat, minimum: int)    // fewer candidates than a truthy min_files
    | MissingKey(key: string)                  // KeyError on a metadata or configuration key
    | NotFormattable(key: string)              // "02d" applied to a value that is not an integer
    | NotAString(key: string)                  // a path joined with a value that is not a string
    | NotATable(section: string)               // a configuration section that is not a table
    | NotADirectory(path: Path)                // create_plex_dir on an existing non-directory
    | NotAFile(path: Path)                     // create_plex_file onto an existing non-file
    | AlreadyExists(path: Path)                // create_plex_file onto a file without overwrite
    | OsFailure(path: Path)                    // mkdir, hard link or copy refused by the OS
    | NoLanguageSuffix(path: Path)             // IndexError at suffixes[-2] of a subtitle name
}
