/** Machine words as the sets of their one bits: `|=` is union, `1 << k` a singleton, and a test
    membership. */
module Bits {
  type Word = w: set<nat> | forall i :: i in w ==> i < 64

  function Bit(i: nat): Word
    requires i < 64
  {
    {i}
  }
}
