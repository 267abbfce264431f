/** The machine integers of the source; Dafny proves that nothing computed in them overflows. */
module Words {

  newtype Int32 = x: int | -0x8000_0000 <= x < 0x8000_0000

  newtype Int64 = x: int | -0x8000_0000_0000_0000 <= x < 0x8000_0000_0000_0000
}
