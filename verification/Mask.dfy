/** The source picks the shard by masking the hash with a bitwise AND; that is the
    remainder the store functions use. */
module Mask {
  import opened Stores

  function And(x: nat, y: nat): nat
    decreases x
  {
    if x == 0 || y == 0 then 0
    else 2 * And(x / 2, y / 2) + if x % 2 == 1 && y % 2 == 1 then 1 else 0
  }

  /** A mask of ones, one bit longer: the low bit stays, the rest is the shorter mask. */
  lemma AndStep(x: nat, y: nat)
    ensures And(x, 2 * y + 1) == 2 * And(x / 2, y) + x % 2
  {
    assert (2 * y + 1) / 2 == y && (2 * y + 1) % 2 == 1;
  }

  lemma MaskOf4(x: nat)
    ensures And(x, 3) == x % 4
  {
    AndStep(x, 1);
    AndStep(x / 2, 0);
  }

  lemma MaskOf8(x: nat)
    ensures And(x, 7) == x % 8
  {
    AndStep(x, 3);
    MaskOf4(x / 2);
  }

  lemma MaskOf16(x: nat)
    ensures And(x, 15) == x % 16
  {
    AndStep(x, 7);
    MaskOf8(x / 2);
    Halves(x);
  }

  lemma Halves(x: nat)
    ensures 2 * ((x / 2) % 8) + x % 2 == x % 16
  {
    var q, r := x / 16, x % 16;
    assert x / 2 == 8 * q + r / 2;
  }

  lemma MaskedIndex(h: Hash, key: string)
    ensures And(h(key), 15) == ShardIndex(h, key)
  {
    MaskOf16(h(key));
  }
}
