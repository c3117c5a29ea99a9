/** Heap lists: an element width and a sequence of elements of that many
    bytes. A string list is a list of width 2 whose elements are string
    handles. */
module Lists {
  import opened Words
  import opened Wrappers

  datatype UCList = UCList(elemSize: nat, elems: seq<seq<u8>>)

  /** Every element is exactly elemSize bytes. */
  predicate WellFormed(l: UCList)
  {
    forall i :: 0 <= i < |l.elems| ==> |l.elems[i]| == l.elemSize
  }

  function Empty(elemSize: nat): (l: UCList)
    ensures WellFormed(l) && l.elems == []
  {
    UCList(elemSize, [])
  }

  /** append: one element, of the list's width, copied from memory. */
  function Append(l: UCList, e: seq<u8>): (r: UCList)
    requires |e| == l.elemSize
    ensures WellFormed(l) ==> WellFormed(r)
    ensures r.elemSize == l.elemSize && r.elems == l.elems + [e]
  {
    l.(elems := l.elems + [e])
  }

  /** appendList, for lists of equal width (the callers check it). */
  function AppendList(l: UCList, other: UCList): (r: UCList)
    requires l.elemSize == other.elemSize
    ensures WellFormed(l) && WellFormed(other) ==> WellFormed(r)
    ensures r.elemSize == l.elemSize && |r.elems| == |l.elems| + |other.elems|
    ensures r.elems[..|l.elems|] == l.elems && r.elems[|l.elems|..] == other.elems
  {
    l.(elems := l.elems + other.elems)
  }

  /** assign: overwrite element index; an index past the end is a fault. */
  function AssignElem(l: UCList, index: nat, e: seq<u8>): (r: Option<UCList>)
    requires |e| == l.elemSize
    ensures r.Some? <==> index < |l.elems|
    ensures r.Some? ==> WellFormed(l) ==> WellFormed(r.value)
    ensures r.Some? ==> r.value.elemSize == l.elemSize && |r.value.elems| == |l.elems|
    ensures r.Some? ==> r.value.elems[index] == e
    ensures r.Some? ==> forall i :: 0 <= i < |l.elems| && i != index ==> r.value.elems[i] == l.elems[i]
  {
    if index < |l.elems| then Some(l.(elems := l.elems[index := e])) else None
  }

  /** getStringIndex: element i read as a little-endian 16-bit handle. */
  function StringIndex(l: UCList, i: nat): (r: Option<u16>)
    ensures r.Some? <==> i < |l.elems| && |l.elems[i]| >= 2
  {
    if i < |l.elems| && |l.elems[i]| >= 2 then Some(FromLE16(l.elems[i][..2])) else None
  }

  /** Element x of this list equals e on this list's width (the bytes
      compared by inList and remove). */
  predicate Matches(x: seq<u8>, e: seq<u8>)
  {
    |x| <= |e| && e[..|x|] == x
  }

  /** remove: drop every element that matches e, keeping the others in
      order. */
  function RemoveMatching(elems: seq<seq<u8>>, e: seq<u8>): (r: seq<seq<u8>>)
    ensures |r| <= |elems|
    ensures forall x :: x in r ==> x in elems && !Matches(x, e)
    ensures forall x :: x in elems && !Matches(x, e) ==> x in r
    ensures forall x :: multiset(r)[x] == if Matches(x, e) then 0 else multiset(elems)[x]
  {
    if elems == [] then []
    else
      var rest := RemoveMatching(elems[1..], e);
      assert elems == [elems[0]] + elems[1..];
      if Matches(elems[0], e) then rest else [elems[0]] + rest
  }

  /** remove works element by element: on a concatenation it is the
      concatenation of the two removals, so the survivors keep their
      order. */
  lemma {:induction false} RemoveMatchingAppend(a: seq<seq<u8>>, b: seq<seq<u8>>, e: seq<u8>)
    ensures RemoveMatching(a + b, e) == RemoveMatching(a, e) + RemoveMatching(b, e)
    decreases |a|
  {
    if a == [] {
      assert a + b == b;
    } else {
      assert (a + b)[0] == a[0] && (a + b)[1..] == a[1..] + b;
      RemoveMatchingAppend(a[1..], b, e);
    }
  }

  /** subtractList: remove, for each element of other in turn. */
  function Subtract(elems: seq<seq<u8>>, other: seq<seq<u8>>): (r: seq<seq<u8>>)
    ensures |r| <= |elems|
    decreases |other|
  {
    if other == [] then elems else Subtract(RemoveMatching(elems, other[0]), other[1..])
  }

  function SubtractList(l: UCList, other: UCList): (r: UCList)
    ensures r.elemSize == l.elemSize
    ensures WellFormed(l) ==> WellFormed(r)
  {
    var r := l.(elems := Subtract(l.elems, other.elems));
    SubtractKeeps(l.elems, other.elems);
    assert forall i :: 0 <= i < |r.elems| ==> r.elems[i] in l.elems;
    r
  }

  /** What survives a subtraction is exactly the elements that match none of
      the subtracted ones. */
  lemma {:induction false} SubtractKeeps(elems: seq<seq<u8>>, other: seq<seq<u8>>)
    ensures forall x :: x in Subtract(elems, other) <==>
      x in elems && forall o :: o in other ==> !Matches(x, o)
    decreases |other|
  {
    if other != [] {
      SubtractKeeps(RemoveMatching(elems, other[0]), other[1..]);
      forall x
        ensures x in Subtract(elems, other) <==> x in elems && forall o :: o in other ==> !Matches(x, o)
      {
        assert forall o :: o in other <==> o == other[0] || o in other[1..];
      }
    }
  }

  /** inList: some element equals e. */
  predicate InList(l: UCList, e: seq<u8>)
  {
    exists i :: 0 <= i < |l.elems| && l.elems[i] == e
  }
}
