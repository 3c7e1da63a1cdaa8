/** What several modules share. */
module Basics {

  datatype Option<T> = None | Some(value: T)

  const TWO32 := 0x1_0000_0000

  type uint32 = x: int | 0 <= x < TWO32

  /** The slots of a local storage (KEDR_MAX_LOCAL_VALUES). */
  const MAX_VALUES := 32

  /** The low 32 bits. */
  function Truncate(x: int): uint32 { x % TWO32 }

  /** What the processor makes of a stored double word. */
  function SignExtend(v: nat): int { if v < TWO32 / 2 then v else v - TWO32 }
}
