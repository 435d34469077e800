// Stock definitions that several modules share.
module Common {

  datatype Option<+T> = None | Some(value: T)

  function Min(a: int, b: int): int { if a < b then a else b }

  function RealMin(a: real, b: real): real { if a < b then a else b }
}
