/**
 Small definitions that several modules share.
 */
module Common {

  datatype Option<T> = None | Some(value: T)

  /** `traits_type::int_type`: a character or eof. */
  datatype IntType = Eof | Char(c: char)

  function Min(a: nat, b: nat): nat { if a <= b then a else b }

  function Max(a: nat, b: nat): nat { if a <= b then b else a }
}
