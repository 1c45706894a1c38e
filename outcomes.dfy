/**
 * The exceptions that the setup and run steps of the VERSPM core model
 * raise, and the outcome of a step: it completes or stops with the first
 * exception raised.
 */
module Outcomes {

  /** A path as its components, relative to the directory the step works in. */
  type Path = seq<string>

  datatype Error =
    | KeyError(key: string)          // a missing parameter or table column
    | TypeError(what: string)        // arithmetic on a text parameter, a path joined with None
    | ValueError(what: string)       // `:.3f` applied to text, `astype(int)` applied to NaN
    | FileNotFound(path: Path)
    | NotADirectory(path: Path)
    | IsADirectory(path: Path)
    | ParseError(path: Path)         // `pd.read_csv` rejects the file

  datatype Option<T> = None | Some(value: T)

  datatype Result<T> = Ok(value: T) | Err(error: Error)

  datatype Outcome = Success | Failure(error: Error)
}
