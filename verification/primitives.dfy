/** Small building blocks shared by the model: an optional value (the
    program's nullable references and `DateTime?` fields) and the fixed-width
    .NET integer types whose width matters to the lockout counter. */
module Primitives {

  /** A nullable value: `None` stands for C#'s `null`. */
  datatype Option<+T> = None | Some(value: T)

  const Int16Min: int := -0x8000
  const Int16Max: int := 0x7FFF
  const Int32Min: int := -0x8000_0000
  const Int32Max: int := 0x7FFF_FFFF

  /** C#'s `short`. */
  type Int16 = x: int | Int16Min <= x <= Int16Max

  /** C#'s `int`. */
  type Int32 = x: int | Int32Min <= x <= Int32Max

  /** `x++` on a C# `int` in the default unchecked context: it wraps from
      `int.MaxValue` to `int.MinValue`. */
  function Int32Increment(x: Int32): (r: Int32)
    ensures x < Int32Max ==> r == x + 1
    ensures x == Int32Max ==> r == Int32Min
  {
    if x == Int32Max then Int32Min else x + 1
  }
}
