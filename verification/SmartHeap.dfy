/** AnahySmartHeap: a binary heap of job pointers in a resizable array, slot 0 unused.  The
    methods refine the functions of HeapOrder. */
module SmartHeap {
  import opened Options
  import opened Capacity
  import opened HeapOrder
  import SmartStack

  class SmartHeap<T(0)> {
    var data: array<Entry<T>>
    var size: nat
    var upper: nat
    var lower: nat
    const min: nat
    /** Elements copied by all reallocs so far. */
    ghost var copied: nat

    ghost function Shape(): Shape
      reads this
    {
      Capacity.Shape(size, upper, lower, min)
    }

    ghost predicate Valid()
      reads this
    {
      Fits(Heap, Shape()) && data.Length == upper
    }

    /** The live elements in array order. */
    ghost function Contents(): (s: seq<Entry<T>>)
      reads this, data
      requires Valid()
      ensures |s| == size
    {
      data[1..size + 1]
    }

    constructor (requested: int)
      ensures Valid() && fresh(data)
      ensures Shape() == Initial(requested) && Contents() == [] && copied == 0
    {
      var s: nat := if requested < 12 then 12 else requested;
      min := s;
      upper := s;
      lower := s / 4;
      size := 0;
      data := new Entry<T>[s];
      copied := 0;
      new;
      InitialBounds(requested);
    }

    method Empty() returns (e: bool)
      requires Valid()
      ensures e <==> Contents() == []
    {
      e := size == 0;
    }

    method HeapifyUp(start: nat)
      requires Valid() && 1 <= start <= size
      modifies data
      ensures Valid() && Contents() == SiftUp(old(Contents()), start)
    {
      var child := start;
      var parent := child / 2;
      while parent >= 1 && child > 1 && data[parent].id > data[child].id
        invariant 1 <= child <= size && parent == child / 2
        invariant SiftUp(Contents(), child) == SiftUp(old(Contents()), start)
        decreases child
      {
        ghost var before := Contents();
        data[parent], data[child] := data[child], data[parent];
        assert Contents() == Swap(before, parent, child);
        child := child / 2;
        parent := child / 2;
      }
    }

    method HeapifyDown(start: nat)
      requires Valid() && 1 <= start
      modifies data
      ensures Valid() && Contents() == SiftDown(old(Contents()), start)
    {
      var parent := start;
      var child := 2 * parent;
      while child <= size
        invariant 1 <= parent && child == 2 * parent
        invariant SiftDown(Contents(), parent) == SiftDown(old(Contents()), start)
        decreases size - parent
      {
        ghost var before := Contents();
        var right := 2 * parent + 1;
        if right <= size && data[child].id > data[right].id {
          child := right;
        }
        assert child == SmallerChild(before, parent);
        data[parent], data[child] := data[child], data[parent];
        assert Contents() == Swap(before, parent, child);
        parent := child;
        child := 2 * parent;
      }
    }

    method Insert(e: Entry<T>)
      requires Valid()
      modifies this, data
      ensures Valid() && (data == old(data) || fresh(data))
      ensures Contents() == AfterInsert(old(Contents()), e)
      ensures Shape() == Apply(Heap, old(Shape()), Push)
      ensures upper == if old(size) + 1 == old(upper) then 2 * old(upper) else old(upper)
      ensures lower == if old(size) + 1 == old(upper) then 2 * old(lower) else old(lower)
      ensures copied == old(copied) + Copied(Heap, old(Shape()), Push)
    {
      ghost var before := Contents();
      ApplyKeepsShape(Heap, Shape(), Push);
      size := size + 1;
      if size == upper {
        copied := copied + (size - 1);
        lower := lower * 2;
        upper := upper * 2;
        data := SmartStack.Reallocate(data, size, upper);
      }
      data[size] := e;
      assert Contents() == before + [e];
      HeapifyUp(size);
    }

    /** Shrinks the array after an element has been removed. */
    method Shrink()
      requires Bounds(Shape()) && size < upper && (lower <= min || size >= lower) && data.Length == upper
      modifies this
      ensures Valid() && (data == old(data) || fresh(data)) && size == old(size)
      ensures data[1..size + 1] == old(data[1..size + 1])
      ensures Shape() == if old(size == lower && size > min) then Halve(old(Shape())) else old(Shape())
      ensures copied == old(copied) + if old(size == lower && size > min) then size else 0
    {
      if size == lower && size > min {
        copied := copied + size;
        QuarterBound(Shape());
        HalveBounds(Shape());
        upper := upper / 2;
        lower := lower / 2;
        ghost var before := data[1..size + 1];
        data := SmartStack.Reallocate(data, size + 1, upper);
        assert data[1..size + 1] == data[..size + 1][1..];
      }
    }

    method ExtractMin() returns (min: Option<Entry<T>>)
      requires Valid()
      modifies this, data
      ensures Valid() && (data == old(data) || fresh(data))
      ensures min.None? <==> old(Contents()) == []
      ensures min.None? ==> Contents() == [] && Shape() == old(Shape())
      ensures min.Some? ==> min.value == old(Contents())[0]
      ensures min.Some? ==> Contents() == AfterExtractMin(old(Contents())) && Shape() == Apply(Heap, old(Shape()), Pop)
      ensures copied == old(copied) + if min.None? then 0 else Copied(Heap, old(Shape()), Pop)
      ensures min.Some? && old(size) - 1 == old(lower) > this.min ==>
                upper == old(upper) / 2 && lower == old(lower) / 2
      ensures min.Some? && !(old(size) - 1 == old(lower) > this.min) ==> upper == old(upper) && lower == old(lower)
    {
      if size == 0 {
        return None;
      }
      ghost var before := Contents();
      BoundsIgnoreSize(Shape(), size - 1);
      min := Some(data[1]);
      data[1] := data[size];
      size := size - 1;
      Shrink();
      assert size > 0 ==> Contents() == LastOverRoot(before);
      HeapifyDown(1);
    }

    method ExtractLast() returns (last: Option<Entry<T>>)
      requires Valid()
      modifies this
      ensures Valid() && (data == old(data) || fresh(data))
      ensures last.None? <==> old(Contents()) == []
      ensures last.None? ==> Contents() == [] && Shape() == old(Shape())
      ensures last.Some? ==> last.value == old(Contents())[|old(Contents())| - 1]
      ensures last.Some? ==>
                Contents() == AfterExtractLast(old(Contents())) && Shape() == Apply(Heap, old(Shape()), Pop)
      ensures copied == old(copied) + if last.None? then 0 else Copied(Heap, old(Shape()), Pop)
      ensures last.Some? && old(size) - 1 == old(lower) > this.min ==>
                upper == old(upper) / 2 && lower == old(lower) / 2
      ensures last.Some? && !(old(size) - 1 == old(lower) > this.min) ==> upper == old(upper) && lower == old(lower)
    {
      if size == 0 {
        return None;
      }
      ghost var before := Contents();
      BoundsIgnoreSize(Shape(), size - 1);
      last := Some(data[size]);
      size := size - 1;
      Shrink();
      assert Contents() == AfterExtractLast(before);
    }
  }
}
