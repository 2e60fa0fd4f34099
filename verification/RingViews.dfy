/** One thread's own operations on a ring (component/smart_buffer.go), seen from outside. */
module RingViews {
  import opened RingIndex
  import opened Rings

  /** The ring before and after one operation of the thread. */
  datatype View = View(before: Ring, after: Ring)

  predicate Quiet(v: View) { v.after == v.before }

  predicate Sane(w: seq<View>) {
    forall i :: 0 <= i < |w| ==> |w[i].before.buf| > 0
  }

  /** What the slot of index `at` holds. */
  function Held(v: View, at: int): Item
    requires |v.before.buf| > 0
  {
    SlotBounds(at, |v.before.buf|);
    v.before.buf[CalcPos(at, |v.before.buf|)]
  }

  predicate Puts(v: View, at: int, item: Item)
    requires |v.before.buf| > 0
  {
    SlotBounds(at, |v.before.buf|);
    v.after == v.before.(buf := v.before.buf[CalcPos(at, |v.before.buf|) := item])
  }
}
