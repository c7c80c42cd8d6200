/** The machine integers that several parts share (types.h). */
module Types {

  const UINT := 0x1_0000_0000

  type byte = x: int | 0 <= x < 256
}
