/** AnahySmartStack: an array that doubles when full and halves at a quarter. */
module SmartStack {
  import opened Capacity

  /** realloc: the first `live` elements survive. */
  method Reallocate<T(0)>(data: array<T>, live: nat, capacity: nat) returns (copy: array<T>)
    requires live <= data.Length && live <= capacity
    ensures fresh(copy) && copy.Length == capacity && copy[..live] == data[..live]
  {
    copy := new T[capacity];
    for i := 0 to live
      invariant copy[..i] == data[..i]
    {
      copy[i] := data[i];
    }
  }

  class SmartStack<T(0)> {
    var size: nat
    var upper: nat
    var lower: nat
    const min: nat
    var data: array<T>
    /** Elements copied by all reallocs so far. */
    ghost var copied: nat

    ghost function Shape(): Shape
      reads this
    {
      Capacity.Shape(size, upper, lower, min)
    }

    ghost predicate Valid()
      reads this
    {
      Fits(Stack, Shape()) && data.Length == upper
    }

    /** The elements, bottom first. */
    ghost function Contents(): seq<T>
      reads this, data
      requires Valid()
    {
      data[..size]
    }

    constructor (requested: int)
      ensures Valid() && fresh(data)
      ensures Shape() == Initial(requested) && Contents() == [] && copied == 0
    {
      var s: nat := if requested < 12 then 12 else requested;
      min := s;
      upper := s;
      lower := s / 4;
      size := 0;
      data := new T[s];
      copied := 0;
      new;
      InitialBounds(requested);
    }

    method Size() returns (n: nat)
      requires Valid()
      ensures n == |Contents()|
    {
      n := size;
    }

    method Top() returns (x: T)
      requires Valid() && Contents() != []
      ensures x == Contents()[|Contents()| - 1]
    {
      x := data[size - 1];
    }

    method Push(x: T)
      requires Valid()
      modifies this, data
      ensures Valid() && (data == old(data) || fresh(data))
      ensures Contents() == old(Contents()) + [x]
      ensures Shape() == Apply(Stack, old(Shape()), Op.Push)
      ensures upper == if old(size == upper) then 2 * old(upper) else old(upper)
      ensures lower == if old(size == upper) then 2 * old(lower) else old(lower)
      ensures copied == old(copied) + Copied(Stack, old(Shape()), Op.Push)
    {
      ApplyKeepsShape(Stack, Shape(), Op.Push);
      if size == upper {
        copied := copied + size;
        upper := upper * 2;
        lower := lower * 2;
        data := Reallocate(data, size, upper);
      }
      data[size] := x;
      size := size + 1;
    }

    method Pop()
      requires Valid() && Contents() != []
      modifies this
      ensures Valid() && (data == old(data) || fresh(data))
      ensures Contents() == old(Contents())[..|old(Contents())| - 1]
      ensures Shape() == Apply(Stack, old(Shape()), Op.Pop)
      ensures upper == if old(size == lower && lower > min) then old(upper) / 2 else old(upper)
      ensures lower == if old(size == lower && lower > min) then old(lower) / 2 else old(lower)
      ensures copied == old(copied) + Copied(Stack, old(Shape()), Op.Pop)
    {
      ApplyKeepsShape(Stack, Shape(), Op.Pop);
      if size == lower && lower > min {
        copied := copied + size;
        upper := upper / 2;
        lower := lower / 2;
        data := Reallocate(data, size, upper);
      }
      size := size - 1;
    }
  }
}
