/** Vocabulary shared by every module: bytes, slots, optional values. */
module Basics {

  datatype Option<+T> = None | Some(value: T)

  type byte = b: int | 0 <= b < 256

  /** One of the two A/B rootfs slots. */
  datatype Slot = SlotA | SlotB {
    function Other(): Slot {
      if this == SlotA then SlotB else SlotA
    }

    function Number(): nat {
      if this == SlotA then 0 else 1
    }
  }

  lemma Assoc<T>(a: seq<T>, b: seq<T>, c: seq<T>)
    ensures (a + b) + c == a + (b + c)
    ensures a + b <= a + (b + c)
  {
    assert (a + (b + c))[..|a + b|] == a + b;
  }

  function Min(a: int, b: int): int {
    if a <= b then a else b
  }
}
