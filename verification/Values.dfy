// Small notions that several modules share.

module Values {

  datatype Option<T> = None | Some(value: T)

  // How far apart two frequencies are.
  function Distance(a: real, b: real): (d: real)
    ensures d >= 0.0 && (d == a - b || d == b - a)
  {
    if a < b then b - a else a - b
  }

  function Min(a: real, b: real): real {
    if b < a then b else a
  }

  function Max(a: real, b: real): real {
    if a < b then b else a
  }
}
