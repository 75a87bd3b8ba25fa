/** What every module may need: a value that may be absent, and the decimal digits. */
module Wrappers {
  datatype Option<+T> = None | Some(value: T)

  function Digit(n: nat): char
    requires n < 10
  {
    '0' + n as char
  }
}
