/** The optional value used throughout: a null shared pointer, an absent header, a missing key. */
module Options {

  datatype Option<+T> = None | Some(value: T)

  function Min(a: nat, b: nat): nat { if a <= b then a else b }
}
