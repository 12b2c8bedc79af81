/** The integers of each Rust integer type, by its sign and width. */
module Integers {
  import opened Decimals
  import opened Levels

  /** How many bits a Rust integer type has, a pointer's 64. */
  function Bits(scalar: Scalar): nat {
    match scalar
    case U8 => 8
    case I8 => 8
    case U16 => 16
    case I16 => 16
    case U32 => 32
    case I32 => 32
    case U64 => 64
    case I64 => 64
    case Usize => 64
    case Isize => 64
    case _ => 0
  }

  predicate IsSigned(scalar: Scalar) {
    scalar.I8? || scalar.I16? || scalar.I32? || scalar.I64? || scalar.Isize?
  }

  /** `n` is one of the integers of a Rust type: those of its sign and width. */
  predicate IsRustInt(scalar: Scalar, n: int) {
    && Bits(scalar) > 0
    && if IsSigned(scalar) then 0 - Power(2, Bits(scalar) - 1) <= n < Power(2, Bits(scalar) - 1)
       else 0 <= n < Power(2, Bits(scalar))
  }

  /** A range that opens at a bound, and one that ends at one. */
  predicate HasStart(kind: RangeKind) {
    !kind.RangeTo?
  }

  predicate HasEnd(kind: RangeKind) {
    !kind.RangeFrom?
  }
}
