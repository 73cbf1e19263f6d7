/**
 * The six combat colours and their hexadecimal values. These are the
 * colour table of the configuration object, inlined as constants.
 */
module Palette {

  /** The colour tag carried by monsters and projectiles. */
  datatype ColorType = Red | Yellow | Blue | Orange | Purple | Green

  /** Hex value of the neutral crystal colour, shown when no colour is selected. */
  const GreyHex: int := 0x7f8c8d

  /** Hex value of each colour tag (the `colors` table). */
  function Hex(t: ColorType): (h: int)
    ensures 0 <= h < 0x1000000
  {
    match t
    case Red => 0xFF0033
    case Yellow => 0xFFD633
    case Blue => 0x00FFFF
    case Orange => 0xFF6600
    case Purple => 0xBC13FE
    case Green => 0x00FF00
  }

  /** The six tags are told apart by their colour, and none of them is grey. */
  lemma HexDistinct(s: ColorType, t: ColorType)
    ensures Hex(s) == Hex(t) <==> s == t
    ensures Hex(s) != GreyHex
  {
  }
}
