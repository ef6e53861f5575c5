// Types shared by the models of several source files.
module Common {

  datatype Option<+T> = None | Some(value: T)

  datatype Result<+T> = Ok(value: T) | Err(error: string)

  /** The two markets the platform trades (`MarketType`). */
  datatype Market = TW | US

  function Max(x: real, y: real): (m: real)
    ensures m >= x && m >= y && (m == x || m == y)
  {
    if x >= y then x else y
  }

  /**
   * A product with a name of its own. Contracts that only pass products along
   * mention it, so that their proofs need no arithmetic.
   */
  function Times(x: real, y: real): real {
    x * y
  }

  /** How far `value` lies below `peak`, as a fraction of `peak`. */
  function Fall(peak: real, value: real): real
    requires peak != 0.0
  {
    (peak - value) / peak
  }

  function Min(x: real, y: real): (m: real)
    ensures m <= x && m <= y && (m == x || m == y)
  {
    if x <= y then x else y
  }
}
