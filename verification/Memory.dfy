module Memory {

  /** memcpy to an offset: the elements there are replaced, the others kept. */
  method MemCopy<T>(target: array<T>, offset: nat, source: seq<T>)
    requires offset + |source| <= target.Length
    modifies target
    ensures target[..] == old(target[..offset]) + source + old(target[offset + |source|..])
  {
    var i := 0;
    while i < |source|
      invariant 0 <= i <= |source|
      invariant forall j :: 0 <= j < target.Length ==>
        target[j] == if offset <= j < offset + i then source[j - offset] else old(target[j])
    {
      target[offset + i] := source[i];
      i := i + 1;
    }
    assert target[..] == old(target[..offset]) + source + old(target[offset + |source|..]);
  }
}
