/** The slice of `std::io` and `std::process` that the loaders touch:
    error kinds, errors, and the outcome of running `curl`. */
module Io {

  /** The `io::ErrorKind` variants the crate produces itself. */
  datatype ErrorKind = InvalidData | InvalidInput | Other

  datatype IoError = IoError(kind: ErrorKind, message: string)

  /** What `Command::new("curl").args(["-s", url]).output()` can give back:
      the process could not be started (the `?` on `output()` passes that
      error on), or it ran and exited with or without success, leaving
      its standard output. */
  datatype CurlOutcome =
    | SpawnFailed(error: IoError)
    | Exited(success: bool, stdout: string)

  /** `Command::new("curl").args(["-s", url]).output()`, by URL; shared by
      the frequency and TLE downloads. */
  type Curl = string -> CurlOutcome
}
