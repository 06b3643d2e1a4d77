/** Definitions several modules share. */
module Common {

  datatype Option<+T> = None | Some(value: T)

  function Min(a: nat, b: nat): nat {
    if a < b then a else b
  }

  const ENOENT: int := 2
  const EAGAIN: int := 11
}
