/** The growing array in which a parsed value keeps its elements. */
module JsonList {

  /** The most that a list grows by at once. */
  const MAX_GROWTH: nat := 60000

  class ElementList<T> {
    var l: array<T>
    var lsize: nat
    /** Free places behind the elements, in 16 bits. */
    var lremain: nat

    ghost predicate Valid()
      reads this`l, this`lsize, this`lremain
    {
      l.Length == lsize + lremain && lremain < 0x1_0000
    }

    ghost function Contents(): seq<T>
      reads this`l, this`lsize, this`lremain, l
      requires Valid()
    {
      l[..lsize]
    }

    constructor ()
      ensures Valid() && fresh(l) && Contents() == []
    {
      l := new T[0];
      lsize, lremain := 0, 0;
    }

    /** Adds an element. A full array is replaced by one of twice the size, but by no more than 60000 elements, so
        that the count of free places fits its 16 bits. */
    method EmplaceBack(v: T)
      requires Valid() && lsize < 0x4000_0000
      modifies this, l
      ensures Valid() && Contents() == old(Contents()) + [v]
      ensures l == old(l) || fresh(l)
    {
      if lremain == 0 {
        Grow(v);
      }
      l[lsize] := v;
      lsize := lsize + 1;
      lremain := lremain - 1;
    }

    method Grow(filler: T)
      requires Valid() && lremain == 0 && lsize < 0x4000_0000
      modifies this`l, this`lremain
      ensures Valid() && fresh(l) && lremain > 0 && l[..lsize] == old(l[..lsize])
    {
      var newSize := lsize + lsize;
      if newSize - lsize > MAX_GROWTH {
        newSize := lsize + MAX_GROWTH;
      }
      if newSize < 4 {
        newSize := 4;
      }
      var p := new T[newSize](_ => filler);
      for i := 0 to lsize
        invariant p[..i] == l[..i]
        modifies p
      {
        p[i] := l[i];
      }
      l := p;
      lremain := (newSize - lsize) % 0x1_0000;
    }
  }
}
