/** Sizes and bounds of the resizable arrays: doubling when full, halving at a quarter. */
module Capacity {

  /** `upper` slots are allocated; the array is halved when `lower` elements are left, but
      not down to `min` or fewer. */
  datatype Shape = Shape(size: nat, upper: nat, lower: nat, min: nat)

  function Pow2(k: nat): (p: nat)
    ensures p >= 1
  {
    if k == 0 then 1 else 2 * Pow2(k - 1)
  }

  /** The constructor's bounds for a requested size. */
  function Initial(requested: int): (h: Shape)
    ensures h.size == 0 && h.upper == h.min >= requested && (h.min == 12 || h.min == requested > 12)
    ensures 4 * h.lower <= h.min < 4 * (h.lower + 1)
  {
    var s := if requested < 12 then 12 else requested;
    Shape(0, s, s / 4, s)
  }

  function Double(h: Shape): Shape
  {
    h.(upper := h.upper * 2, lower := h.lower * 2)
  }

  function Halve(h: Shape): Shape
  {
    h.(upper := h.upper / 2, lower := h.lower / 2)
  }

  /** The bounds are the constructor's, doubled `k` times. */
  ghost predicate Doubled(h: Shape, k: nat)
  {
    h.min >= 12 && h.upper == h.min * Pow2(k) && h.lower == (h.min / 4) * Pow2(k)
  }

  ghost predicate Bounds(h: Shape)
  {
    exists k: nat :: Doubled(h, k)
  }

  lemma InitialBounds(requested: int)
    ensures Bounds(Initial(requested))
  {
    assert Doubled(Initial(requested), 0);
  }

  lemma DoubleBounds(h: Shape)
    requires Bounds(h)
    ensures Bounds(Double(h)) && Halve(Double(h)) == h && h.upper > 0
  {
    var k: nat :| Doubled(h, k);
    assert h.min * Pow2(k + 1) == 2 * (h.min * Pow2(k));
    assert (h.min / 4) * Pow2(k + 1) == 2 * ((h.min / 4) * Pow2(k));
    assert Doubled(Double(h), k + 1);
  }

  lemma QuarterBound(h: Shape)
    requires Bounds(h)
    ensures 4 * h.lower <= h.upper && h.lower >= 3
  {
    var k: nat :| Doubled(h, k);
    QuarterTimes(h.min, Pow2(k));
  }

  lemma QuarterTimes(m: nat, p: nat)
    requires m >= 12 && p >= 1
    ensures 4 * ((m / 4) * p) <= m * p && (m / 4) * p >= 3
  {
    assert (4 * (m / 4)) * p <= m * p;
    assert (m / 4) * p >= m / 4;
  }

  /** Halving is exact: it undoes one doubling, with no rounding. */
  lemma {:induction false} HalveBounds(h: Shape)
    requires Bounds(h) && h.lower > h.min
    ensures Bounds(Halve(h)) && Double(Halve(h)) == h
  {
    var k: nat :| Doubled(h, k);
    if k > 0 {
      assert h.min * Pow2(k) == 2 * (h.min * Pow2(k - 1));
      assert (h.min / 4) * Pow2(k) == 2 * ((h.min / 4) * Pow2(k - 1));
      assert Doubled(Halve(h), k - 1);
    }
  }

  // ---------------------------------------------------------------- the stack and the heap

  /** The heap keeps slot 0 free, counts a new element before it looks for room, and looks
      whether to shrink after it has taken an element. */
  datatype Kind = Stack | Heap

  datatype Op = Push | Pop

  predicate Resizes(kind: Kind, h: Shape, op: Op)
    requires op.Pop? ==> h.size > 0
  {
    match (kind, op)
    case (Stack, Push) => h.size == h.upper
    case (Stack, Pop) => h.size == h.lower && h.lower > h.min
    case (Heap, Push) => h.size + 1 == h.upper
    case (Heap, Pop) => h.size - 1 == h.lower && h.size - 1 > h.min
  }

  /** The bounds and size after an operation. */
  function Apply(kind: Kind, h: Shape, op: Op): Shape
    requires op.Pop? ==> h.size > 0
  {
    match op
    case Push => (if Resizes(kind, h, op) then Double(h) else h).(size := h.size + 1)
    case Pop => (if Resizes(kind, h, op) then Halve(h) else h).(size := h.size - 1)
  }

  /** Elements that the operation's realloc copies: those in the array when it is called. */
  function Copied(kind: Kind, h: Shape, op: Op): nat
    requires op.Pop? ==> h.size > 0
  {
    if !Resizes(kind, h, op) then 0 else if kind.Heap? && op.Pop? then h.size - 1 else h.size
  }

  /** The elements fit, and an array that could be halved holds more than a quarter. */
  ghost predicate Fits(kind: Kind, h: Shape)
  {
    && Bounds(h)
    && (if kind.Stack? then h.size <= h.upper else h.size < h.upper)
    && (h.lower <= h.min || if kind.Stack? then h.size >= h.lower else h.size > h.lower)
  }

  lemma {:induction false} ApplyKeepsShape(kind: Kind, h: Shape, op: Op)
    requires Fits(kind, h) && (op.Pop? ==> h.size > 0)
    ensures Fits(kind, Apply(kind, h, op))
    ensures Resizes(kind, h, op) ==> Copied(kind, h, op) <= (if op.Push? then Double(h) else Halve(h)).upper
  {
    QuarterBound(h);
    match op
    case Push =>
      if Resizes(kind, h, op) {
        DoubleBounds(h);
        BoundsIgnoreSize(Double(h), h.size + 1);
      } else {
        BoundsIgnoreSize(h, h.size + 1);
      }
    case Pop =>
      if Resizes(kind, h, op) {
        HalveBounds(h);
        BoundsIgnoreSize(Halve(h), h.size - 1);
      } else {
        BoundsIgnoreSize(h, h.size - 1);
      }
  }

  lemma BoundsIgnoreSize(h: Shape, size: nat)
    requires Bounds(h)
    ensures Bounds(h.(size := size))
  {
    var k: nat :| Doubled(h, k);
    assert Doubled(h.(size := size), k);
  }

  function Max(a: int, b: int): int
  {
    if a < b then b else a
  }

  /** So the capacity follows the size down as well as up. */
  lemma CapacityFollowsSize(kind: Kind, h: Shape)
    requires Fits(kind, h)
    ensures h.upper <= 5 * Max(h.min, h.size)
  {
    var k: nat :| Doubled(h, k);
    FiveQuarters(h.min, Pow2(k));
  }

  lemma FiveQuarters(m: nat, p: nat)
    requires m >= 12
    ensures m * p <= 5 * ((m / 4) * p)
  {
    assert m <= 5 * (m / 4);
    assert m * p <= (5 * (m / 4)) * p;
  }

  // ---------------------------------------------------------------- amortized cost

  /** What earlier operations have paid towards the next resize. */
  function Potential(h: Shape): (c: nat)
  {
    Max(0, Max(2 * h.size - h.upper, 2 * h.lower - h.size))
  }

  function Price(op: Op): nat
  {
    if op.Push? then 2 else 1
  }

  lemma ApplyPays(kind: Kind, h: Shape, op: Op)
    requires Fits(kind, h) && (op.Pop? ==> h.size > 0)
    ensures Copied(kind, h, op) + Potential(Apply(kind, h, op)) <= Potential(h) + Price(op)
  {
    QuarterBound(h);
    if Resizes(kind, h, op) && op.Pop? {
      HalveBounds(h);
    }
  }

  /** Nothing is taken from an empty array. */
  predicate Legal(kind: Kind, h: Shape, ops: seq<Op>)
    decreases |ops|
  {
    ops == [] || ((ops[0].Pop? ==> h.size > 0) && Legal(kind, Apply(kind, h, ops[0]), ops[1..]))
  }

  function Run(kind: Kind, h: Shape, ops: seq<Op>): Shape
    requires Legal(kind, h, ops)
    decreases |ops|
  {
    if ops == [] then h else Run(kind, Apply(kind, h, ops[0]), ops[1..])
  }

  function TotalCopied(kind: Kind, h: Shape, ops: seq<Op>): nat
    requires Legal(kind, h, ops)
    decreases |ops|
  {
    if ops == [] then 0 else Copied(kind, h, ops[0]) + TotalCopied(kind, Apply(kind, h, ops[0]), ops[1..])
  }

  function TotalPrice(ops: seq<Op>): (p: nat)
    ensures p == 2 * multiset(ops)[Push] + multiset(ops)[Pop]
  {
    if ops == [] then 0
    else
      assert ops == [ops[0]] + ops[1..];
      Price(ops[0]) + TotalPrice(ops[1..])
  }

  lemma {:induction false} RunPays(kind: Kind, h: Shape, ops: seq<Op>)
    requires Fits(kind, h) && Legal(kind, h, ops)
    ensures Fits(kind, Run(kind, h, ops))
    ensures TotalCopied(kind, h, ops) + Potential(Run(kind, h, ops)) <= Potential(h) + TotalPrice(ops)
    decreases |ops|
  {
    if ops != [] {
      ApplyPays(kind, h, ops[0]);
      ApplyKeepsShape(kind, h, ops[0]);
      RunPays(kind, Apply(kind, h, ops[0]), ops[1..]);
    }
  }

  /** For every sequence of operations from a new stack or heap: the size fits the capacity,
      the capacity is the initial one doubled some number of times, and all reallocs
      together copy at most two elements per insertion, one per removal, and half the initial
      capacity. */
  lemma AmortizedBound(kind: Kind, requested: int, ops: seq<Op>)
    requires Legal(kind, Initial(requested), ops)
    ensures Fits(kind, Run(kind, Initial(requested), ops))
    ensures TotalCopied(kind, Initial(requested), ops)
              <= 2 * multiset(ops)[Push] + multiset(ops)[Pop] + Initial(requested).min / 2
  {
    InitialBounds(requested);
    RunPays(kind, Initial(requested), ops);
  }

  /** For every such sequence: as long as the array can be halved without falling to the initial
      size or below, a stack holds at least `lower` elements and a heap more than that; and the
      capacity is at most five times the size or the initial capacity. */
  lemma ShrinksInTime(kind: Kind, requested: int, ops: seq<Op>)
    requires Legal(kind, Initial(requested), ops)
    ensures var h := Run(kind, Initial(requested), ops);
            && (h.lower <= h.min || if kind.Stack? then h.size >= h.lower else h.size > h.lower)
            && h.upper <= 5 * Max(h.min, h.size)
  {
    AmortizedBound(kind, requested, ops);
    CapacityFollowsSize(kind, Run(kind, Initial(requested), ops));
  }
}
