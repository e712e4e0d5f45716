/** The scanline ring buffer of the image resizer, as a window of consecutive rows. */
module RingBuffer {

  /** A row of samples: nothing is known about it except that there is a zero row. */
  type Row(==, !new, 0)

  /** `(begin + d) % n`, with both operands below `n`. */
  function Slot(begin: nat, d: nat, n: nat): (r: nat)
    requires begin < n && d < n
    ensures r < n && r == (begin + d) % n
  {
    ModBelowTwice(begin + d, n);
    if begin + d < n then begin + d else begin + d - n
  }

  lemma ModBelowTwice(x: nat, n: nat)
    requires 0 < n && x < 2 * n
    ensures x % n == if x < n then x else x - n
  {
    if x >= n {
      assert x == n * 1 + (x - n);
      assert x / n == 1;
    }
  }

  /** Where scanline `k` is when `first` is in slot `begin`. */
  function SlotOf(begin: nat, first: int, k: int, n: nat): (r: nat)
    requires begin < n && first <= k < first + n
    ensures r < n
  {
    Slot(begin, k - first, n)
  }

  /** `(begin + 1) % n`. */
  function Next(begin: nat, n: nat): (r: nat)
    requires begin < n
    ensures r < n && r == (begin + 1) % n
  {
    ModBelowTwice(begin + 1, n);
    if begin + 1 < n then begin + 1 else 0
  }

  lemma SlotsDiffer(begin: nat, first: int, k: int, n: nat)
    requires begin < n && first <= k < first + n
    ensures forall j :: first <= j < first + n && j != k ==> SlotOf(begin, first, j, n) != SlotOf(begin, first, k, n)
  {
  }

  lemma SlotShift(begin: nat, first: int, n: nat)
    requires begin < n
    ensures forall k :: first < k < first + n ==>
              SlotOf(Next(begin, n), first + 1, k, n) == SlotOf(begin, first, k, n)
  {
  }

  class Ring {
    const rows: array<Row>
    /** The slot of `first`, or -1 when the buffer is empty. */
    var begin: int
    var first: int
    var last: int
    /** The rows in the buffer, by scanline. */
    ghost var held: map<int, Row>

    ghost predicate Valid()
      reads this, rows
    {
      && rows.Length > 0
      && (begin < 0 ==> held == map[])
      && (begin >= 0 ==>
            && begin < rows.Length && first <= last && last - first < rows.Length
            && (forall k :: k in held <==> first <= k <= last)
            && forall k :: first <= k <= last ==> held[k] == rows[SlotOf(begin, first, k, rows.Length)])
    }

    constructor (entries: nat, zero: Row)
      requires entries > 0
      ensures Valid() && begin < 0 && held == map[] && rows.Length == entries && fresh(rows)
    {
      rows := new Row[entries](_ => zero);
      begin, first, last, held := -1, 0, 0, map[];
    }

    /** `stbir__add_empty_ring_buffer_entry` for scanline `n`, filled with `x`. */
    method Add(n: int, x: Row)
      requires Valid()
      requires begin >= 0 ==> n == last + 1 && n - first < rows.Length
      modifies this, rows
      ensures Valid() && begin >= 0 && last == n
      ensures first == if old(begin) >= 0 then old(first) else n
      ensures held == old(held)[n := x]
    {
      last := n;
      var index := 0;
      if begin < 0 {
        begin, first := 0, n;
      } else {
        index := SlotOf(begin, first, last, rows.Length);
        SlotsDiffer(begin, first, last, rows.Length);
        assert index != begin by {
          assert SlotOf(begin, first, first, rows.Length) == begin;
        }
      }
      rows[index] := x;
      held := held[n := x];
    }

    /** `stbir__get_ring_buffer_scanline`. */
    function Get(k: int): (x: Row)
      requires Valid() && k in held
      reads this, rows
      ensures x == held[k]
    {
      rows[SlotOf(begin, first, k, rows.Length)]
    }

    method Set(k: int, x: Row)
      requires Valid() && k in held
      modifies this`held, rows
      ensures Valid() && held == old(held)[k := x]
    {
      SlotsDiffer(begin, first, k, rows.Length);
      rows[SlotOf(begin, first, k, rows.Length)] := x;
      held := held[k := x];
    }

    /** Drops the first scanline. */
    method Pop()
      requires Valid() && begin >= 0
      modifies this
      ensures Valid() && held == old(held) - {old(first)}
      ensures if old(first) == old(last) then begin < 0 else begin >= 0 && first == old(first) + 1 && last == old(last)
    {
      held := held - {first};
      if first == last {
        assert forall k :: k !in held;
        begin, first, last := -1, 0, 0;
      } else {
        SlotShift(begin, first, rows.Length);
        first, begin := first + 1, Next(begin, rows.Length);
      }
    }
  }
}
