/** Index arithmetic shared by the ring buffers. */
module RingIndex {

  /** The ring index i places after `head`. */
  function Slot(head: nat, i: nat, capacity: nat): nat {
    if head + i < capacity then head + i else head + i - capacity
  }

  lemma ProductAtLeast(q: int, c: nat, k: nat)
    requires q >= k
    ensures q * c >= k * c
  {
    assert (q - k) * c >= 0;
    assert (q - k) * c == q * c - k * c;
  }

  lemma SlotIsMod(head: nat, i: nat, capacity: nat)
    requires head < capacity && i <= capacity
    ensures (head + i) % capacity == Slot(head, i, capacity)
  {
    var x := head + i;
    var q := x / capacity;
    assert x == q * capacity + x % capacity;
    if q >= 2 {
      ProductAtLeast(q, capacity, 2);
    } else if q >= 1 {
      ProductAtLeast(q, capacity, 1);
    }
  }
}
