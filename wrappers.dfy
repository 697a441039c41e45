/** Option and Result values used where the Go code returns a value together with an error. */
module Wrappers {

  datatype Option<+T> = None | Some(value: T)

  /** A Go `(value, error)` pair: Ok carries the value, Err the text of `err.Error()`. */
  datatype Result<+T> = Ok(value: T) | Err(error: string)
}

/** The process environment, read with os.Getenv. */
module Os {

  /** Environment variables after the optional `.env` file has been loaded. */
  type Environment = map<string, string>

  /** os.Getenv: the value of `name`, or "" when it is unset. */
  function Getenv(env: Environment, name: string): (value: string)
    ensures name !in env ==> value == ""
    ensures name in env ==> value == env[name]
  {
    if name in env then env[name] else ""
  }
}
