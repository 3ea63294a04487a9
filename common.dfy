/** Shared vocabulary: optional values, the ways a server action can fail,
    and the free-form organization configuration with JavaScript truthiness. */
module Common {

  datatype Option<+T> = None | Some(value: T)

  /** How a server action ends when it does not succeed.
      - Reported: the action returns an `{ error: message }` object to its caller;
      - Raised: the action throws an `Error(message)`;
      - NotFound: the store itself throws because a record looked up by id or
        by a filter does not exist. */
  datatype Failure = Reported(message: string) | Raised(message: string) | NotFound

  datatype Outcome<+T> = Ok(value: T) | Fail(failure: Failure)

  /** Record identifiers handed out by the store. */
  type Id = nat

  /** A value in an organization's `config` JSON object. */
  datatype Value = Flag(flag: bool) | Text(text: string)

  type Config = map<string, Value>

  /** `config[key]` is truthy in JavaScript: a missing key is `undefined`,
      `false` and `""` are falsy, everything else is truthy. */
  predicate Truthy(config: Config, key: string)
  {
    key in config &&
    match config[key]
    case Flag(b) => b
    case Text(s) => s != ""
  }

  /** `x || 0` for a numeric column that may be unset. */
  function OrZero(x: Option<int>): int
  {
    match x
    case Some(v) => v
    case None => 0
  }
}
