/** The ring as one thread sees it: two free-running 64-bit indices over a masked slot array. */
module SpscRing {
  import opened Words
  import BoundedFifo

  /** The slot `i` places after index `start`. */
  function At(start: nat, i: nat, capacity: nat): (slot: nat)
    requires capacity > 0
    ensures slot < capacity
  {
    (start + i) % capacity
  }

  /** `n` consecutive slots from index `start`, wrapping around. */
  function Window<T>(slots: seq<T>, start: nat, n: nat): (q: seq<T>)
    requires |slots| > 0
    ensures |q| == n
    ensures forall i :: 0 <= i < n ==> q[i] == slots[At(start, i, |slots|)]
  {
    if n == 0 then [] else Window(slots, start, n - 1) + [slots[At(start, n - 1, |slots|)]]
  }

  /** One more than a difference that does not fill the word is the difference of the next index. */
  lemma NextDifference(w: u64, r: u64)
    requires Sub64(w, r) + 1 < TWO64
    ensures Sub64(Add64(w, 1), r) == Sub64(w, r) + 1
  {
  }

  lemma SubThenAdd(w: u64, r: u64)
    ensures (r + Sub64(w, r)) % TWO64 == w
  {
  }

  /** The masked write index is the slot just after the last unread one. */
  lemma WriteSlot(w: u64, r: u64, k: nat)
    requires k <= 64
    ensures BitAnd(w, Pow2(k) - 1) == At(r, Sub64(w, r), Pow2(k))
  {
    hide Pow2; hide BitAnd; hide Sub64;
    MaskIsModulo(w, k);
    SubThenAdd(w, r);
    SameWrapSameSlot(w, r + Sub64(w, r), k);
  }

  /** A window that is not full does not reach the slot after it. */
  lemma FreshSlot(start: nat, n: nat, capacity: nat)
    requires n < capacity
    ensures forall i :: 0 <= i < n ==> At(start, i, capacity) != At(start, n, capacity)
  {
    forall i | 0 <= i < n ensures At(start, i, capacity) != At(start, n, capacity) {
      DistinctSlots(start + i, start + n, capacity);
    }
  }

  lemma WindowMore<T>(slots: seq<T>, start: nat, n: nat)
    requires |slots| > 0
    ensures Window(slots, start, n + 1) == Window(slots, start, n) + [slots[At(start, n, |slots|)]]
  {
  }

  /** Filling the slot after a window that is not full extends it by one. */
  lemma PushWindow<T>(slots: seq<T>, w: u64, r: u64, k: nat, x: T)
    requires 1 <= k <= 63 && |slots| == Pow2(k) && Sub64(w, r) < Pow2(k)
    ensures var slot := BitAnd(w, |slots| - 1);
            Window(slots[slot := x], r, Sub64(w, r) + 1) == Window(slots, r, Sub64(w, r)) + [x]
  {
    hide Pow2; hide BitAnd; hide Sub64; hide Window; hide At;
    var n, slot := Sub64(w, r), BitAnd(w, |slots| - 1);
    WriteSlot(w, r, k);
    FreshSlot(r, n, |slots|);
    assert Window(slots[slot := x], r, n) == Window(slots, r, n);
    WindowMore(slots[slot := x], r, n);
  }

  lemma StepDifference(w: u64, r: u64)
    requires w != r
    ensures Sub64(w, Add64(r, 1)) == Sub64(w, r) - 1
  {
  }

  /** Wrapping an index before adding an offset does not change the slot reached. */
  lemma WrappedStart(n: nat, i: nat, k: nat)
    requires k <= 64
    ensures At(n % TWO64, i, Pow2(k)) == At(n, i, Pow2(k))
  {
    WrapFirst(n, i);
    SameWrapSameSlot(n % TWO64 + i, n + i, k);
  }

  /** Advancing the read index drops the oldest element, which the masked index reaches. */
  lemma PopWindow<T>(slots: seq<T>, w: u64, r: u64, k: nat)
    requires 1 <= k <= 63 && |slots| == Pow2(k) && w != r
    ensures Sub64(w, Add64(r, 1)) + 1 == Sub64(w, r)
    ensures var q := Window(slots, r, Sub64(w, r));
            && q[0] == slots[BitAnd(r, |slots| - 1)]
            && Window(slots, Add64(r, 1), Sub64(w, Add64(r, 1))) == q[1..]
  {
    MaskIsModulo(r, k);
    StepDifference(w, r);
    forall i | 0 <= i < Sub64(w, r) - 1 ensures At(Add64(r, 1), i, |slots|) == At(r, i + 1, |slots|) {
      WrappedStart(r + 1, i, k);
    }
  }

  class Ring<T(0)> {
    const k: nat
    var write: u64
    var read: u64
    const slots: array<T>

    ghost function Capacity(): nat {
      Pow2(k)
    }

    ghost predicate Valid()
      reads this
    {
      1 <= k <= 63 && slots.Length == Pow2(k) && Sub64(write, read) <= Pow2(k)
    }

    /** The unread records, oldest first. */
    ghost function Contents(): (q: seq<T>)
      requires Valid()
      reads this, slots
      ensures |q| == Sub64(write, read) <= Capacity()
    {
      Window(slots[..], read, Sub64(write, read))
    }

    constructor (k: nat)
      requires 1 <= k <= 63
      ensures Valid() && fresh(slots)
      ensures this.k == k && Contents() == []
    {
      this.k := k;
      write, read := 0, 0;
      slots := new T[Pow2(k)];
    }

    method TryPush(r: T) returns (ok: bool)
      requires Valid()
      modifies this`write, slots
      ensures Valid()
      ensures (Contents(), ok) == BoundedFifo.Push(old(Contents()), Capacity(), r)
    {
      CapacityBound(k);
      var w := write;
      var next := Add64(w, 1);
      NextDifference(w, read);
      if Sub64(next, read) > slots.Length {
        return false;
      }
      PushWindow(slots[..], w, read, k, r);
      var slot := BitAnd(w, slots.Length - 1);
      slots[slot] := r;
      write := next;
      return true;
    }

    method TryPop() returns (ok: bool, out: T)
      requires Valid()
      modifies this`read
      ensures Valid()
      ensures (Contents(), if ok then [out] else []) == BoundedFifo.Pop(old(Contents()))
    {
      CapacityBound(k);
      var rd := read;
      if rd == write {
        out := slots[0];
        return false, out;
      }
      PopWindow(slots[..], write, rd, k);
      ghost var before := Contents();
      out := slots[BitAnd(rd, slots.Length - 1)];
      read := Add64(rd, 1);
      assert before == [out] + Contents();
      return true, out;
    }

    /** Approximate only because both indices may move meanwhile; here nothing moves. */
    method SizeApprox() returns (n: u64)
      requires Valid()
      ensures n == |Contents()|
    {
      n := Sub64(write, read);
    }
  }
}
