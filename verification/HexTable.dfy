/** The hexadecimal digits, by their places. */
module HexTable {
  const LOWER_DIGITS := "0123456789abcdef"
  const UPPER_DIGITS := "0123456789ABCDEF"

  function HexAt(d: nat, upper: bool): char
    requires d < 16
  {
    if upper then UPPER_DIGITS[d] else LOWER_DIGITS[d]
  }
}
