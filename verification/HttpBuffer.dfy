/** The growable byte buffer, with the two search functions as loops over it. */
module HttpBuffer {
  import opened HttpSearch

  class Buffer {
    var data: array?<char>
    var size: nat

    ghost predicate Valid()
      reads this
    {
      if data == null then size == 0 else data.Length == size
    }

    ghost function Contents(): string
      requires Valid()
      reads this, data
    {
      if data == null then [] else data[..]
    }

    /** buffer_init. */
    constructor ()
      ensures Valid() && Contents() == [] && data == null
    {
      data, size := null, 0;
    }

    /** buffer_destroy. */
    method Destroy()
      requires Valid()
      modifies this
      ensures Valid() && Contents() == [] && data == null
    {
      data, size := null, 0;
    }

    /** buffer_is_empty. */
    predicate IsEmpty()
      reads this
    {
      data == null
    }

    /** buffer_add: the old array is replaced by a larger one. */
    method Add(bytes: string)
      requires Valid()
      modifies this
      ensures Valid() && Contents() == old(Contents()) + bytes
      ensures data != null && fresh(data)
    {
      var grown := new char[size + |bytes|](_ => '\0');
      if data != null {
        forall i | 0 <= i < size {
          grown[i] := data[i];
        }
      }
      forall i | 0 <= i < |bytes| {
        grown[size + i] := bytes[i];
      }
      ghost var before := Contents();
      data, size := grown, size + |bytes|;
      assert data[..] == before + bytes;
    }

    /** buffer_find and buffer_find_insensitive. */
    method FindFirst(pat: string, fold: bool) returns (pos: int)
      requires Valid()
      ensures pos == Find(Contents(), pat, fold)
    {
      FindSpec(Contents(), pat, fold);
      if |pat| > size {
        return -1;
      }
      var lastPos := size - |pat| + 1;
      var i := 0;
      while i < lastPos
        invariant 0 <= i <= lastPos
        invariant NoMatch(Contents(), pat, 0, i, fold)
      {
        var j := 0;
        while j < |pat| && Same(data[i + j], pat[j], fold)
          invariant 0 <= j <= |pat|
          invariant forall m :: 0 <= m < j ==> Same(Contents()[i + m], pat[m], fold)
        {
          j := j + 1;
        }
        if j == |pat| {
          FindIs(Contents(), pat, fold, i);
          return i;
        }
        assert !Same(Contents()[i + j], pat[j], fold);
        i := i + 1;
      }
      pos := -1;
    }
  }
}
