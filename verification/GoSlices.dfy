/** A slice as a struct field holds it: a backing array and a length. */
module GoSlices {

  class Slice<T> {
    var data: array<T>
    var length: nat

    ghost predicate Valid()
      reads this
    {
      length <= data.Length
    }

    ghost function Contents(): (s: seq<T>)
      requires Valid()
      reads this, data
      ensures |s| == length && forall i :: 0 <= i < length ==> s[i] == data[i]
    {
      data[..length]
    }

    /** The nil slice. */
    constructor ()
      ensures Valid() && Contents() == [] && fresh(data)
    {
      data, length := new T[0], 0;
    }

    /** `append(s, x)`, assigned back: in place while there is capacity, otherwise in a new array. */
    method Append(x: T)
      requires Valid()
      modifies this, data
      ensures Valid() && (data == old(data) || fresh(data))
      ensures Contents() == old(Contents()) + [x]
    {
      if length == data.Length {
        var was, n := data, length;
        data := new T[2 * n + 1](i requires 0 <= i reads was => if i < was.Length then was[i] else x);
      }
      data[length] := x;
      length := length + 1;
    }

    /** `append(s[:i], s[i+1:]...)`, assigned back: the tail moves down in the same array, whose old
        last element stays behind the new end. */
    method RemoveAt(i: nat)
      requires Valid() && i < length
      modifies this`length, data
      ensures Valid() && length == old(length) - 1
      ensures Contents() == old(Contents())[..i] + old(Contents())[i + 1..]
      ensures forall k :: length <= k < data.Length ==> data[k] == old(data[k])
    {
      var j := i;
      while j + 1 < length
        invariant i <= j < length == old(length)
        invariant forall k :: i <= k < j ==> data[k] == old(data[k + 1])
        invariant forall k :: 0 <= k < data.Length && !(i <= k < j) ==> data[k] == old(data[k])
      {
        data[j] := data[j + 1];
        j := j + 1;
      }
      length := length - 1;
    }
  }
}
