/** The int32 indices of the ring (component/smart_buffer.go) and the slot each one selects.

    The source counts claims in two int32 fields that start at -1 and wrap around.  Here the
    k-th claim since construction or Reset (k = 0, 1, 2, ...) is an unbounded number, the field
    then holds Wrap32(k - 1), and Slot(k, c) is the slot that claim selects in a ring of
    capacity c. */
module RingIndex {

  const TWO31: int := 0x8000_0000
  const TWO32: int := 0x1_0000_0000

  predicate IsInt32(x: int) { -TWO31 <= x < TWO31 }

  /** Two's complement reduction to 32 bits. */
  function Wrap32(x: int): (r: int)
    ensures IsInt32(r)
    ensures IsInt32(x) ==> r == x
  {
    (x + TWO31) % TWO32 - TWO31
  }

  /** Go's `%`: the remainder takes the sign of the dividend. */
  function GoRem(a: int, b: int): int
    requires b > 0
  {
    if a >= 0 then a % b else -((-a) % b)
  }

  function CalcPos(index: int, capacity: int): int {
    if capacity <= 0 then 0
    else
      var pos := GoRem(index, capacity);
      GoRem(if pos < 0 then pos + capacity else pos, capacity)
  }

  function Slot(k: int, capacity: int): int {
    CalcPos(Wrap32(k - 1), capacity)
  }

  /** No claim below `claims` has wrapped, or wrapping is harmless at this capacity. */
  predicate IndexSafe(capacity: int, claims: int) {
    capacity > 0 && (TWO32 % capacity == 0 || claims <= TWO31 + 1)
  }

  // ---------- arithmetic ----------

  lemma MulAtLeast(n: int, c: int)
    requires n >= 1 && c > 0
    ensures n * c >= c
  {
    assert n * c == (n - 1) * c + c;
    assert (n - 1) * c >= 0;
  }

  /** A multiple of c smaller than c in magnitude is zero. */
  lemma SmallMultiple(n: int, c: int)
    requires c > 0 && -c < n * c < c
    ensures n == 0
  {
    var magnitude := if n < 0 then -n else n;
    assert magnitude * c == if n < 0 then -(n * c) else n * c;
    if magnitude != 0 {
      MulAtLeast(magnitude, c);
    }
  }

  lemma DivMod(x: int, c: int)
    requires c > 0
    ensures x == (x / c) * c + x % c && 0 <= x % c < c
  {
  }

  lemma Distribute(a: int, b: int, c: int)
    ensures (a - b) * c == a * c - b * c
  {
  }

  lemma ModUnique(x: int, c: int, q: int, r: int)
    requires c > 0 && 0 <= r < c && x == q * c + r
    ensures x % c == r
  {
    DivMod(x, c);
    Distribute(q, x / c, c);
    SmallMultiple(q - x / c, c);
  }

  lemma ModShift(x: int, c: int, m: int)
    requires c > 0
    ensures (x + m * c) % c == x % c
  {
    assert x + m * c == (x / c + m) * c + x % c by {
      assert x == (x / c) * c + x % c;
    }
    ModUnique(x + m * c, c, x / c + m, x % c);
  }

  /** Two numbers less than c apart never share a residue. */
  lemma ModDistinct(x: int, y: int, c: int)
    requires c > 0 && x < y < x + c
    ensures x % c != y % c
  {
    if x % c == y % c {
      DivMod(x, c);
      DivMod(y, c);
      Distribute(y / c, x / c, c);
      SmallMultiple(y / c - x / c, c);
    }
  }

  /** Incrementing the wrapped field is wrapping the incremented count. */
  lemma Wrap32Add(x: int, d: int)
    ensures Wrap32(Wrap32(x) + d) == Wrap32(x + d)
  {
    var m := (x + TWO31) / TWO32;
    assert Wrap32(x) == x - m * TWO32;
    ModShift(x + d + TWO31, TWO32, -m);
    assert x + d + TWO31 + (-m) * TWO32 == Wrap32(x) + d + TWO31;
  }

  /** The sign correction makes calcPos the Euclidean remainder, negative indices included. */
  lemma CalcPosIsRemainder(index: int, capacity: int)
    requires capacity > 0
    ensures CalcPos(index, capacity) == index % capacity
  {
    var magnitude := if index < 0 then -index else index;
    var r := magnitude % capacity;
    var q := magnitude / capacity;
    DivMod(magnitude, capacity);
    ModUnique(r, capacity, 0, r);
    if index < 0 {
      Distribute(0, q, capacity);
      if r == 0 {
        ModUnique(index, capacity, -q, 0);
      } else {
        Distribute(-q, 1, capacity);
        ModUnique(index, capacity, -q - 1, capacity - r);
        ModUnique(capacity - r, capacity, 0, capacity - r);
      }
    }
  }

  lemma SlotInRange(k: int, capacity: int)
    requires capacity > 0
    ensures 0 <= Slot(k, capacity) < capacity
  {
    CalcPosIsRemainder(Wrap32(k - 1), capacity);
  }

  // ---------- positions of wrapped indices ----------

  /** Wherever the index is safe the slot is the remainder of the unbounded index. */
  lemma SlotIsRemainder(k: int, capacity: int)
    requires 0 <= k && IndexSafe(capacity, k + 1)
    ensures Slot(k, capacity) == (k - 1) % capacity
  {
    CalcPosIsRemainder(Wrap32(k - 1), capacity);
    if TWO32 % capacity == 0 {
      var m := (k - 1 + TWO31) / TWO32;
      var n := TWO32 / capacity;
      assert TWO32 == n * capacity;
      assert Wrap32(k - 1) == k - 1 - m * TWO32;
      assert (-m * n) * capacity == -m * TWO32 by {
        assert m * (n * capacity) == (m * n) * capacity;
      }
      ModShift(k - 1, capacity, -m * n);
    }
  }

  /** The first claim after the wrap lands elsewhere exactly when the capacity does not divide 2^32. */
  lemma FirstWrappedSlot(capacity: int)
    requires capacity > 0
    ensures Slot(TWO31 + 1, capacity) == (TWO31 - TWO32 % capacity) % capacity
  {
    assert Wrap32(TWO31) == -TWO31;
    CalcPosIsRemainder(-TWO31, capacity);
    var s := TWO32 % capacity;
    var n := TWO32 / capacity;
    assert TWO32 == n * capacity + s;
    assert -TWO31 == TWO31 - s + (-n) * capacity by { assert (-n) * capacity == -(n * capacity); }
    ModShift(TWO31 - s, capacity, -n);
  }

  /** Every claim of every run selects the slot its unbounded index asks for
      if and only if the capacity divides 2^32. */
  lemma {:induction false} SlotsAgreeForeverIff(capacity: int)
    requires 0 < capacity < TWO31
    ensures (forall k: nat :: Slot(k, capacity) == (k - 1) % capacity) <==> TWO32 % capacity == 0
  {
    if TWO32 % capacity == 0 {
      forall k: nat ensures Slot(k, capacity) == (k - 1) % capacity {
        SlotIsRemainder(k, capacity);
      }
    } else {
      var s := TWO32 % capacity;
      FirstWrappedSlot(capacity);
      ModDistinct(TWO31 - s, TWO31, capacity);
      assert Slot(TWO31 + 1, capacity) != TWO31 % capacity;
    }
  }

  /** The `capacity` consecutive claims from t on select pairwise different slots. */
  ghost predicate WindowDistinct(capacity: int, t: nat) {
    forall i, j :: t <= i < j < t + capacity ==> Slot(i, capacity) != Slot(j, capacity)
  }

  lemma SafeSlotsDistinct(capacity: int, i: nat, j: nat)
    requires i < j < i + capacity && IndexSafe(capacity, j + 1)
    ensures Slot(i, capacity) != Slot(j, capacity)
  {
    SlotIsRemainder(i, capacity);
    SlotIsRemainder(j, capacity);
    ModDistinct(i - 1, j - 1, capacity);
  }

  /** A full ring keeps its entries in different slots through every run if and only if the
      capacity divides 2^32; otherwise the first wrap makes two live entries share a slot. */
  lemma {:induction false} LiveEntriesDistinctForeverIff(capacity: int)
    requires 0 < capacity < TWO31
    ensures (forall t: nat :: WindowDistinct(capacity, t)) <==> TWO32 % capacity == 0
  {
    if TWO32 % capacity == 0 {
      forall t: nat ensures WindowDistinct(capacity, t) {
        forall i, j | t <= i < j < t + capacity ensures Slot(i, capacity) != Slot(j, capacity) {
          SafeSlotsDistinct(capacity, i, j);
        }
      }
    } else {
      var s := TWO32 % capacity;
      var t: nat := TWO31 + 2 - capacity;
      FirstWrappedSlot(capacity);
      SlotIsRemainder(TWO31 + 1 - s, capacity);
      assert Slot(TWO31 + 1 - s, capacity) == Slot(TWO31 + 1, capacity);
      assert !WindowDistinct(capacity, t);
    }
  }

  /** Before the first wrap every capacity is fine. */
  lemma LiveEntriesDistinctBeforeWrap(capacity: int, t: nat)
    requires 0 < capacity && t + capacity <= TWO31 + 1
    ensures WindowDistinct(capacity, t)
  {
    forall i, j | t <= i < j < t + capacity ensures Slot(i, capacity) != Slot(j, capacity) {
      SafeSlotsDistinct(capacity, i, j);
    }
  }
}
