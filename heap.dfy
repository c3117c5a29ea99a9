/** The string and list heaps: maps from 16-bit handles to texts and to
    lists, each with its own allocator. Handle 0 is never handed out; a
    lookup of a handle that is not in a map finds the empty text or no list,
    and freeing it does nothing. */
module Heap {
  import opened Words
  import opened Wrappers
  import opened Ids
  import opened Lists

  type Text = seq<u8>

  datatype Heaps = Heaps(
    strings: map<u16, Text>,
    stringIds: IdMan,
    lists: map<u16, UCList>,
    listIds: IdMan)

  /** Every list in the heap holds an id its allocator has handed out, so a
      fresh list id is never already in the heap. */
  predicate ListsTracked(h: Heaps)
  {
    forall l :: l in h.lists ==> l in h.listIds.used
  }

  /** Both heaps and allocators empty. */
  function EmptyHeaps(): (h: Heaps)
    ensures ListsTracked(h)
  {
    Heaps(map[], IdMan({}), map[], IdMan({}))
  }

  /** The bytes a C string holds: everything before the first NUL. */
  function CStr(b: seq<u8>): (r: Text)
    ensures |r| <= |b| && r == b[..|r|] && 0 !in r
    ensures |r| < |b| ==> b[|r|] == 0
  {
    if b == [] || b[0] == 0 then [] else [b[0]] + CStr(b[1..])
  }

  /** getString: the text of handle s, the empty text when s is unknown. */
  function GetString(h: Heaps, s: u16): (r: Text)
    ensures s !in h.strings ==> r == []
    ensures s in h.strings ==> r == h.strings[s]
  {
    if s in h.strings then h.strings[s] else []
  }

  /** getList: the list of handle l, if there is one. */
  function GetList(h: Heaps, l: u16): (r: Option<UCList>)
    ensures r.Some? <==> l in h.lists
    ensures r.Some? ==> r.value == h.lists[l]
  {
    if l in h.lists then Some(h.lists[l]) else None
  }

  /** assignString: store the C string under a fresh handle; when the
      allocator is exhausted, the text is dropped and 0 is returned. */
  function AssignString(h: Heaps, text: seq<u8>): (r: (Heaps, u16))
    ensures r.1 != 0 ==> r.1 !in h.stringIds.used && r.0.stringIds.used == h.stringIds.used + {r.1}
    ensures r.1 != 0 ==> r.0.strings == h.strings[r.1 := CStr(text)]
    ensures r.1 == 0 ==> r.0 == h
    ensures StringsPlain(h) ==> StringsPlain(r.0)
    ensures r.0.lists == h.lists && r.0.listIds == h.listIds
  {
    var (ids, id) := NewId(h.stringIds);
    if id == 0 then (h, 0)
    else (h.(strings := h.strings[id := CStr(text)], stringIds := ids), id)
  }

  /** duplicateString: the source indexes the heap with `operator[]`, which
      first inserts an empty text for an unknown handle; then the text is
      stored again under a fresh handle. */
  function DuplicateString(h: Heaps, s: u16): (r: (Heaps, u16))
    ensures r.1 != 0 ==> r.1 !in h.stringIds.used && r.0.stringIds.used == h.stringIds.used + {r.1}
    ensures r.1 != 0 ==> GetString(r.0, r.1) == CStr(GetString(h, s))
    ensures r.1 == 0 ==> r.0.stringIds == h.stringIds
    ensures forall x :: x != r.1 ==> GetString(r.0, x) == GetString(h, x)
    ensures forall x :: x in r.0.strings ==> x in h.strings || x == s || x == r.1
    ensures StringsPlain(h) ==> StringsPlain(r.0)
    ensures r.0.lists == h.lists && r.0.listIds == h.listIds
  {
    var h1 := if s in h.strings then h else h.(strings := h.strings[s := []]);
    AssignString(h1, h1.strings[s])
  }

  /** assignList: store the list under a fresh list handle (0 when exhausted,
      and then the list is dropped). */
  function AssignList(h: Heaps, l: UCList): (r: (Heaps, u16))
    ensures r.1 != 0 ==> r.1 !in h.listIds.used && r.0.lists == h.lists[r.1 := l]
    ensures r.1 != 0 ==> r.0.listIds.used == h.listIds.used + {r.1}
    ensures r.1 == 0 ==> r.0 == h
    ensures r.0.strings == h.strings && r.0.stringIds == h.stringIds
    ensures ListsTracked(h) ==> ListsTracked(r.0)
  {
    var (ids, id) := NewId(h.listIds);
    if id == 0 then (h, 0)
    else (h.(lists := h.lists[id := l], listIds := ids), id)
  }

  /** freeString: drop the text and return its handle to the allocator; an
      unknown handle changes nothing. */
  function FreeString(h: Heaps, s: u16): (r: Heaps)
    ensures s !in r.strings
    ensures s in h.strings ==> r.strings == h.strings - {s} && r.stringIds == ClearId(h.stringIds, s)
    ensures s !in h.strings ==> r == h
    ensures r.lists == h.lists && r.listIds == h.listIds
    ensures StringsPlain(h) ==> StringsPlain(r)
  {
    if s in h.strings then h.(strings := h.strings - {s}, stringIds := ClearId(h.stringIds, s))
    else h
  }

  /** freeList: drop the list and return its handle; an unknown handle
      changes nothing. */
  function FreeList(h: Heaps, l: u16): (r: Heaps)
    ensures l !in r.lists
    ensures l in h.lists ==> r.lists == h.lists - {l} && r.listIds == ClearId(h.listIds, l)
    ensures l !in h.lists ==> r == h
    ensures r.strings == h.strings && r.stringIds == h.stringIds
    ensures ListsTracked(h) ==> ListsTracked(r)
  {
    if l in h.lists then h.(lists := h.lists - {l}, listIds := ClearId(h.listIds, l))
    else h
  }

  /** The string handle an element of a string list holds, little-endian
      (an element too short to hold one reads as 0). */
  function ElemHandle(e: seq<u8>): u16
  {
    if |e| >= 2 then FromLE16(e[..2]) else 0
  }

  /** The text of the string an element refers to. */
  function TextOf(h: Heaps, e: seq<u8>): Text
  {
    GetString(h, ElemHandle(e))
  }

  /** The string handles a string list holds, in order. */
  function Handles(elems: seq<seq<u8>>): (r: seq<u16>)
    ensures |r| == |elems|
    ensures forall i :: 0 <= i < |elems| ==> r[i] == ElemHandle(elems[i])
  {
    if elems == [] then [] else [ElemHandle(elems[0])] + Handles(elems[1..])
  }

  /** No two elements of a string list hold the same handle, as when each
      element's string was made for that list. */
  predicate DistinctHandles(elems: seq<seq<u8>>)
  {
    forall i, j :: 0 <= i < j < |elems| ==> ElemHandle(elems[i]) != ElemHandle(elems[j])
  }

  /** No element of a holds a handle an element of b holds. */
  predicate Apart(a: seq<seq<u8>>, b: seq<seq<u8>>)
  {
    forall x, y :: x in a && y in b ==> ElemHandle(x) != ElemHandle(y)
  }

  /** No stored text has a NUL byte: every text was stored as a C string. */
  predicate StringsPlain(h: Heaps)
  {
    forall s :: s in h.strings ==> 0 !in h.strings[s]
  }

  /** Free each handle in turn. */
  function FreeStrings(h: Heaps, handles: seq<u16>): (r: Heaps)
    ensures forall s :: s in handles ==> s !in r.strings
    ensures forall s :: s in r.strings ==> s in h.strings && r.strings[s] == h.strings[s]
    ensures forall s :: s in h.strings && s !in handles ==> s in r.strings && r.strings[s] == h.strings[s]
    ensures r.lists == h.lists && r.listIds == h.listIds
    decreases |handles|
  {
    if handles == [] then h
    else
      assert forall s :: s in handles ==> s == handles[0] || s in handles[1..];
      FreeStrings(FreeString(h, handles[0]), handles[1..])
  }

  /** freeStringList: free every string the list holds, then the list; an
      unknown handle changes nothing. No other string is touched. */
  function FreeStringList(h: Heaps, l: u16): (r: Heaps)
    ensures l !in r.lists
    ensures l !in h.lists ==> r == h
    ensures l in h.lists ==> r.lists == h.lists - {l} && r.listIds == ClearId(h.listIds, l)
    ensures l in h.lists ==> forall s :: s in Handles(h.lists[l].elems) ==> s !in r.strings
    ensures forall s :: s in r.strings ==> s in h.strings && r.strings[s] == h.strings[s]
    ensures l in h.lists ==> forall s :: s in h.strings && s !in Handles(h.lists[l].elems) ==>
      s in r.strings && r.strings[s] == h.strings[s]
    ensures ListsTracked(h) ==> ListsTracked(r)
  {
    if l in h.lists then
      var h1 := FreeStrings(h, Handles(h.lists[l].elems));
      h1.(lists := h1.lists - {l}, listIds := ClearId(h1.listIds, l))
    else h
  }

  /** stringInList: some element's text equals the text of handle s. */
  predicate StringInList(h: Heaps, elems: seq<seq<u8>>, s: u16)
  {
    exists i :: 0 <= i < |elems| && TextOf(h, elems[i]) == GetString(h, s)
  }

  /** unionStringList: for each element of src in turn, append it to dst if
      no element of dst (including those appended so far) has its text, and
      otherwise free its string; src is emptied without freeing what moved.
      Only strings of src are freed, and an element of src that is not in
      the result has had its string freed. */
  function UnionStrings(h: Heaps, dst: seq<seq<u8>>, src: seq<seq<u8>>): (r: (Heaps, seq<seq<u8>>))
    ensures |dst| <= |r.1| <= |dst| + |src| && r.1[..|dst|] == dst
    ensures forall i :: |dst| <= i < |r.1| ==> r.1[i] in src
    ensures forall x :: x in src && x !in r.1 ==> ElemHandle(x) !in r.0.strings
    ensures forall s :: s in r.0.strings ==> s in h.strings && r.0.strings[s] == h.strings[s]
    ensures forall s :: s in h.strings && (forall x :: x in src ==> ElemHandle(x) != s) ==> s in r.0.strings
    ensures r.0.lists == h.lists && r.0.listIds == h.listIds
    decreases |src|
  {
    if src == [] then (h, dst)
    else
      var s := ElemHandle(src[0]);
      if StringInList(h, dst, s) then UnionStrings(FreeString(h, s), dst, src[1..])
      else
        var (h1, d1) := UnionStrings(h, dst + [src[0]], src[1..]);
        assert d1[..|dst|] == d1[..|dst| + 1][..|dst|];
        assert d1[|dst|] == d1[..|dst| + 1][|dst|] == src[0];
        assert forall x :: x in src ==> x == src[0] || x in src[1..];
        (h1, d1)
  }

  /** removeString: drop and free every element whose text is t. Each
      element is tested against the heap as the earlier removals left it.
      The elements whose text is not t stay, those whose text is t have
      their strings freed, no survivor reads as t, and no string other than
      one of the list's with text t is freed. */
  function RemoveString(h: Heaps, elems: seq<seq<u8>>, t: Text): (r: (Heaps, seq<seq<u8>>))
    ensures RemoveOutcome(h, elems, t, r)
    decreases |elems|
  {
    if elems == [] then (h, [])
    else
      var s := ElemHandle(elems[0]);
      if GetString(h, s) == t then
        var r := RemoveString(FreeString(h, s), elems[1..], t);
        RemoveDropStep(h, elems, t, r);
        r
      else
        var (h1, rest) := RemoveString(h, elems[1..], t);
        RemoveKeepStep(h, elems, t, h1, rest);
        (h1, [elems[0]] + rest)
  }

  /** What RemoveString leaves: no more elements than before, the survivors
      are elements whose text is not t, every element whose text is not t
      survives, every element that went has had its string freed, no string
      is changed, and only strings with text t held by the list are freed. */
  predicate RemoveOutcome(h: Heaps, elems: seq<seq<u8>>, t: Text, r: (Heaps, seq<seq<u8>>))
  {
    |r.1| <= |elems|
    && (forall x :: x in r.1 ==> x in elems && TextOf(r.0, x) != t)
    && (forall x :: x in elems && TextOf(h, x) != t ==> x in r.1)
    && (forall x :: x in elems && x !in r.1 ==> ElemHandle(x) !in r.0.strings)
    && (forall s :: s in r.0.strings ==> s in h.strings && r.0.strings[s] == h.strings[s])
    && (forall s :: s in h.strings && h.strings[s] != t ==> s in r.0.strings)
    && (forall s :: s in h.strings && (forall x :: x in elems ==> ElemHandle(x) != s) ==> s in r.0.strings)
    && r.0.lists == h.lists && r.0.listIds == h.listIds
  }

  /** The first element's text is t: it goes, its string is freed. */
  lemma RemoveDropStep(h: Heaps, elems: seq<seq<u8>>, t: Text, r: (Heaps, seq<seq<u8>>))
    requires elems != [] && GetString(h, ElemHandle(elems[0])) == t
    requires RemoveOutcome(FreeString(h, ElemHandle(elems[0])), elems[1..], t, r)
    ensures RemoveOutcome(h, elems, t, r)
  {
    assert forall x :: x in elems ==> x == elems[0] || x in elems[1..];
  }

  /** The first element's text is not t: it stays in front. */
  lemma RemoveKeepStep(h: Heaps, elems: seq<seq<u8>>, t: Text, h1: Heaps, rest: seq<seq<u8>>)
    requires elems != [] && GetString(h, ElemHandle(elems[0])) != t
    requires RemoveOutcome(h, elems[1..], t, (h1, rest))
    ensures RemoveOutcome(h, elems, t, (h1, [elems[0]] + rest))
  {
    assert forall x :: x in elems ==> x == elems[0] || x in elems[1..];
  }

  /** subtractStringList: for each element of src, remove (and free) every
      element of dst whose text equals its text. What remains is part of
      dst, every element of dst that went has had its string freed, and
      only strings held by dst are freed. */
  function SubtractStrings(h: Heaps, dst: seq<seq<u8>>, src: seq<seq<u8>>): (r: (Heaps, seq<seq<u8>>))
    ensures |r.1| <= |dst|
    ensures forall x :: x in r.1 ==> x in dst
    ensures forall x :: x in dst && x !in r.1 ==> ElemHandle(x) !in r.0.strings
    ensures forall s :: s in r.0.strings ==> s in h.strings && r.0.strings[s] == h.strings[s]
    ensures forall s :: s in h.strings && (forall x :: x in dst ==> ElemHandle(x) != s) ==> s in r.0.strings
    ensures r.0.lists == h.lists && r.0.listIds == h.listIds
    decreases |src|
  {
    if src == [] then (h, dst)
    else
      var (h1, d1) := RemoveString(h, dst, TextOf(h, src[0]));
      SubtractStrings(h1, d1, src[1..])
  }

  /** copyStringList: a list of fresh handles, one duplicate of each string
      in turn. Every nonzero handle is one the allocator had not handed out
      before, no two are the same, and every handle already handed out
      reads as before. */
  function CopyStrings(h: Heaps, src: seq<seq<u8>>): (r: (Heaps, seq<seq<u8>>))
    ensures |r.1| == |src|
    ensures forall i :: 0 <= i < |r.1| ==> |r.1[i]| == 2
    ensures forall i :: 0 <= i < |r.1| && ElemHandle(r.1[i]) != 0 ==>
      ElemHandle(r.1[i]) !in h.stringIds.used && ElemHandle(r.1[i]) in r.0.stringIds.used
    ensures forall i, j :: 0 <= i < j < |r.1| && ElemHandle(r.1[i]) != 0 ==> ElemHandle(r.1[i]) != ElemHandle(r.1[j])
    ensures h.stringIds.used <= r.0.stringIds.used
    ensures forall s :: s in h.stringIds.used ==> GetString(r.0, s) == GetString(h, s)
    ensures r.0.lists == h.lists && r.0.listIds == h.listIds
    decreases |src|
  {
    if src == [] then (h, [])
    else
      var (h1, d) := DuplicateString(h, ElemHandle(src[0]));
      var (h2, rest) := CopyStrings(h1, src[1..]);
      FreshHandlesCons(h.stringIds.used, h1.stringIds.used, h2.stringIds.used, d, rest);
      (h2, [LE16(d)] + rest)
  }

  /** The handle list CopyStrings builds stays fresh and distinct when one
      more fresh handle d goes in front. */
  lemma FreshHandlesCons(before: set<u16>, mid: set<u16>, after: set<u16>, d: u16, rest: seq<seq<u8>>)
    requires before <= mid <= after && (d != 0 ==> d !in before && d in mid)
    requires forall i :: 0 <= i < |rest| ==> |rest[i]| == 2
    requires forall i :: 0 <= i < |rest| && ElemHandle(rest[i]) != 0 ==>
      ElemHandle(rest[i]) !in mid && ElemHandle(rest[i]) in after
    requires forall i, j :: 0 <= i < j < |rest| && ElemHandle(rest[i]) != 0 ==> ElemHandle(rest[i]) != ElemHandle(rest[j])
    ensures var out := [LE16(d)] + rest;
      (forall i :: 0 <= i < |out| ==> |out[i]| == 2)
      && (forall i :: 0 <= i < |out| && ElemHandle(out[i]) != 0 ==> ElemHandle(out[i]) !in before && ElemHandle(out[i]) in after)
      && (forall i, j :: 0 <= i < j < |out| && ElemHandle(out[i]) != 0 ==> ElemHandle(out[i]) != ElemHandle(out[j]))
  {
    LE16RoundTrip(d);
    var out := [LE16(d)] + rest;
    assert ElemHandle(out[0]) == d;
    assert forall i :: 0 < i < |out| ==> out[i] == rest[i - 1];
  }

  /** removeString frees the string of every element whose text is t,
      the elements that stay and those that go alike. */
  lemma RemoveStringFreesMatches(h: Heaps, elems: seq<seq<u8>>, t: Text)
    ensures forall x :: x in elems && TextOf(h, x) == t ==> ElemHandle(x) !in RemoveString(h, elems, t).0.strings
  {
    var r := RemoveString(h, elems, t);
    forall x | x in elems && TextOf(h, x) == t ensures ElemHandle(x) !in r.0.strings {
      if x in r.1 {
        assert TextOf(r.0, x) != t;
      }
    }
  }

  /** The elements whose text in h is not t, in order. */
  function Unmatched(h: Heaps, elems: seq<seq<u8>>, t: Text): (r: seq<seq<u8>>)
    ensures forall x :: x in r <==> x in elems && TextOf(h, x) != t
  {
    if elems == [] then []
    else
      assert forall x :: x in elems <==> x == elems[0] || x in elems[1..];
      (if TextOf(h, elems[0]) == t then [] else [elems[0]]) + Unmatched(h, elems[1..], t)
  }

  /** Without its first element a list with distinct handles still has
      them, and none of the rest holds the first one's handle. */
  lemma DistinctTail(elems: seq<seq<u8>>)
    requires elems != [] && DistinctHandles(elems)
    ensures DistinctHandles(elems[1..])
    ensures forall x :: x in elems[1..] ==> ElemHandle(x) != ElemHandle(elems[0])
  {
    forall i, j | 0 <= i < j < |elems| - 1 ensures ElemHandle(elems[1..][i]) != ElemHandle(elems[1..][j]) {
      assert elems[1..][i] == elems[i + 1] && elems[1..][j] == elems[j + 1];
    }
    forall x | x in elems[1..] ensures ElemHandle(x) != ElemHandle(elems[0]) {
      var k :| 0 <= k < |elems| - 1 && elems[1..][k] == x;
      assert elems[k + 1] == x;
    }
  }

  /** Filtering keeps handles distinct. */
  lemma {:induction false} UnmatchedDistinct(h: Heaps, elems: seq<seq<u8>>, t: Text)
    requires DistinctHandles(elems)
    ensures DistinctHandles(Unmatched(h, elems, t))
    decreases |elems|
  {
    if elems != [] {
      DistinctTail(elems);
      UnmatchedDistinct(h, elems[1..], t);
      var rest := Unmatched(h, elems[1..], t);
      if TextOf(h, elems[0]) != t {
        var r := [elems[0]] + rest;
        forall i, j | 0 <= i < j < |r| ensures ElemHandle(r[i]) != ElemHandle(r[j]) {
          assert r[j] == rest[j - 1] && rest[j - 1] in rest;
          if i > 0 {
            assert r[i] == rest[i - 1];
          }
        }
      }
    }
  }

  /** The handles of the elements whose text in h is t, in order. */
  function MatchedHandles(h: Heaps, elems: seq<seq<u8>>, t: Text): seq<u16>
  {
    if elems == [] then []
    else (if TextOf(h, elems[0]) == t then [ElemHandle(elems[0])] else []) + MatchedHandles(h, elems[1..], t)
  }

  /** Two heaps in which every element reads the same text select the same
      elements. */
  lemma {:induction false} SelectionSameTexts(h: Heaps, h2: Heaps, elems: seq<seq<u8>>, t: Text)
    requires forall x :: x in elems ==> TextOf(h, x) == TextOf(h2, x)
    ensures Unmatched(h, elems, t) == Unmatched(h2, elems, t)
    ensures MatchedHandles(h, elems, t) == MatchedHandles(h2, elems, t)
    decreases |elems|
  {
    if elems != [] {
      assert elems[0] in elems;
      assert forall x :: x in elems[1..] ==> x in elems;
      SelectionSameTexts(h, h2, elems[1..], t);
    }
  }

  /** When every element holds its own handle, removeString keeps exactly
      the elements whose text is not t, in their order, and frees exactly
      the strings of the others. */
  lemma {:induction false} RemoveStringFilters(h: Heaps, elems: seq<seq<u8>>, t: Text)
    requires DistinctHandles(elems)
    ensures RemoveString(h, elems, t) == (FreeStrings(h, MatchedHandles(h, elems, t)), Unmatched(h, elems, t))
    decreases |elems|
  {
    if elems != [] {
      var s := ElemHandle(elems[0]);
      var rest := elems[1..];
      DistinctTail(elems);
      if GetString(h, s) == t {
        var h1 := FreeString(h, s);
        SelectionSameTexts(h, h1, rest, t);
        RemoveStringFilters(h1, rest, t);
        var m := MatchedHandles(h, rest, t);
        assert MatchedHandles(h, elems, t) == [s] + m;
        assert ([s] + m)[0] == s && ([s] + m)[1..] == m;
        assert Unmatched(h, elems, t) == [] + Unmatched(h, rest, t) == Unmatched(h, rest, t);
      } else {
        RemoveStringFilters(h, rest, t);
        assert MatchedHandles(h, elems, t) == [] + MatchedHandles(h, rest, t) == MatchedHandles(h, rest, t);
      }
    }
  }

  /** One removal of subtractStringList keeps the hypotheses for the rest
      of src, and the texts of the survivors and of src's elements. */
  lemma RemoveStringStep(h: Heaps, dst: seq<seq<u8>>, src: seq<seq<u8>>, t: Text)
    requires DistinctHandles(dst) && Apart(dst, src) && src != []
    ensures var r := RemoveString(h, dst, t);
      DistinctHandles(r.1) && Apart(r.1, src[1..])
      && (forall x :: x in r.1 ==> TextOf(r.0, x) == TextOf(h, x))
      && (forall y :: y in src[1..] ==> TextOf(r.0, y) == TextOf(h, y))
  {
    RemoveStringFilters(h, dst, t);
    UnmatchedDistinct(h, dst, t);
    var r := RemoveString(h, dst, t);
    forall y | y in src[1..] ensures TextOf(r.0, y) == TextOf(h, y) {
      assert y in src;
    }
  }

  /** What survives subtractStringList is exactly the elements of dst whose
      text is the text of no element of src, when dst's elements hold
      handles of their own and none of src's. */
  lemma {:induction false} SubtractStringsKeeps(h: Heaps, dst: seq<seq<u8>>, src: seq<seq<u8>>)
    requires DistinctHandles(dst) && Apart(dst, src)
    ensures forall x :: x in SubtractStrings(h, dst, src).1 <==>
      x in dst && forall y :: y in src ==> TextOf(h, x) != TextOf(h, y)
    decreases |src|
  {
    if src != [] {
      var t0 := TextOf(h, src[0]);
      var (h1, d1) := RemoveString(h, dst, t0);
      RemoveStringStep(h, dst, src, t0);
      SubtractStringsKeeps(h1, d1, src[1..]);
      assert forall y :: y in src <==> y == src[0] || y in src[1..];
    }
  }

  /** The texts of a union result r of dst and src: every element of the
      result still reads its text, every text of src is in the result, and
      no appended element repeats a text before it. */
  predicate UnionOk(h: Heaps, dst: seq<seq<u8>>, src: seq<seq<u8>>, r: (Heaps, seq<seq<u8>>))
  {
    (forall i :: 0 <= i < |r.1| ==> TextOf(r.0, r.1[i]) == TextOf(h, r.1[i]))
    && (forall y :: y in src ==> exists i :: 0 <= i < |r.1| && TextOf(h, r.1[i]) == TextOf(h, y))
    && (forall i, j :: 0 <= j < i < |r.1| && |dst| <= i ==> TextOf(h, r.1[j]) != TextOf(h, r.1[i]))
  }

  /** The step of unionStringList that frees the first element of src,
      whose text dst already has: a result r for the rest of src, over a
      heap h1 that reads the same texts for dst and the rest, is a result
      for all of src over h. */
  lemma UnionFreeStep(h: Heaps, h1: Heaps, dst: seq<seq<u8>>, src: seq<seq<u8>>, r: (Heaps, seq<seq<u8>>))
    requires src != []
    requires forall x :: x in dst + src[1..] ==> TextOf(h1, x) == TextOf(h, x)
    requires |dst| <= |r.1| && r.1[..|dst|] == dst
    requires forall i :: 0 <= i < |r.1| ==> r.1[i] in dst + src[1..]
    requires exists k :: 0 <= k < |dst| && TextOf(h, dst[k]) == TextOf(h, src[0])
    requires UnionOk(h1, dst, src[1..], r)
    ensures UnionOk(h, dst, src, r)
  {
    forall y | y in src ensures exists i :: 0 <= i < |r.1| && TextOf(h, r.1[i]) == TextOf(h, y) {
      if y == src[0] {
        var k :| 0 <= k < |dst| && TextOf(h, dst[k]) == TextOf(h, src[0]);
        assert r.1[k] == r.1[..|dst|][k] == dst[k];
      } else {
        assert y in src[1..] && y in dst + src[1..];
        var i :| 0 <= i < |r.1| && TextOf(h1, r.1[i]) == TextOf(h1, y);
        assert r.1[i] in dst + src[1..];
      }
    }
  }

  /** The step of unionStringList that appends the first element of src,
      whose text dst does not have: a result r for dst extended by it and
      the rest of src is a result for dst and all of src. */
  lemma UnionAppendStep(h: Heaps, dst: seq<seq<u8>>, src: seq<seq<u8>>, r: (Heaps, seq<seq<u8>>))
    requires src != [] && !StringInList(h, dst, ElemHandle(src[0]))
    requires |dst| + 1 <= |r.1| && r.1[..|dst| + 1] == dst + [src[0]]
    requires UnionOk(h, dst + [src[0]], src[1..], r)
    ensures UnionOk(h, dst, src, r)
  {
    assert r.1[|dst|] == r.1[..|dst| + 1][|dst|] == src[0];
    forall i, j | 0 <= j < i < |r.1| && |dst| <= i ensures TextOf(h, r.1[j]) != TextOf(h, r.1[i]) {
      if i == |dst| {
        assert r.1[j] == r.1[..|dst| + 1][j] == dst[j];
      }
    }
    forall y | y in src ensures exists i :: 0 <= i < |r.1| && TextOf(h, r.1[i]) == TextOf(h, y) {
      if y == src[0] {
        assert TextOf(h, r.1[|dst|]) == TextOf(h, y);
      } else {
        assert y in src[1..];
      }
    }
  }

  /** With every element of dst and src holding its own handle,
      unionStringList gives the union of the texts without adding a
      duplicate (UnionOk). */
  lemma {:induction false} UnionTexts(h: Heaps, dst: seq<seq<u8>>, src: seq<seq<u8>>)
    requires DistinctHandles(dst + src)
    ensures UnionOk(h, dst, src, UnionStrings(h, dst, src))
    decreases |src|
  {
    if src != [] {
      var all := dst + src;
      if StringInList(h, dst, ElemHandle(src[0])) {
        var rest := dst + src[1..];
        assert DistinctHandles(rest) by {
          forall i, j | 0 <= i < j < |rest| ensures ElemHandle(rest[i]) != ElemHandle(rest[j]) {
            var i' := if i < |dst| then i else i + 1;
            var j' := if j < |dst| then j else j + 1;
            assert rest[i] == all[i'] && rest[j] == all[j'];
          }
        }
        var h1 := FreeString(h, ElemHandle(src[0]));
        assert all[|dst|] == src[0];
        forall x | x in rest ensures TextOf(h1, x) == TextOf(h, x) {
          var k :| 0 <= k < |rest| && rest[k] == x;
          assert x == all[if k < |dst| then k else k + 1];
        }
        UnionTexts(h1, dst, src[1..]);
        var r := UnionStrings(h1, dst, src[1..]);
        forall i | 0 <= i < |r.1| ensures r.1[i] in rest {
          if i < |dst| {
            assert r.1[i] == r.1[..|dst|][i] == dst[i];
          }
        }
        UnionFreeStep(h, h1, dst, src, r);
      } else {
        assert (dst + [src[0]]) + src[1..] == all;
        UnionTexts(h, dst + [src[0]], src[1..]);
        UnionAppendStep(h, dst, src, UnionStrings(h, dst + [src[0]], src[1..]));
      }
    }
  }

  /** Each handle of copyStringList's copy reads the C string of the text
      of the element it copies, when every element of src holds a stored
      string and every stored string's handle was handed out by the
      allocator. */
  lemma {:induction false} CopyStringsTexts(h: Heaps, src: seq<seq<u8>>)
    requires forall i :: 0 <= i < |src| ==> ElemHandle(src[i]) in h.strings
    requires forall s :: s in h.strings ==> s in h.stringIds.used
    ensures var r := CopyStrings(h, src);
      forall i :: 0 <= i < |src| && ElemHandle(r.1[i]) != 0 ==> TextOf(r.0, r.1[i]) == CStr(TextOf(h, src[i]))
    decreases |src|
  {
    if src != [] {
      var (h1, d) := DuplicateString(h, ElemHandle(src[0]));
      var rest := src[1..];
      assert forall i :: 0 <= i < |rest| ==> rest[i] == src[i + 1];
      CopyStringsTexts(h1, rest);
      var r1 := CopyStrings(h1, rest);
      var r := CopyStrings(h, src);
      assert r.1 == [LE16(d)] + r1.1 && r.0 == r1.0;
      LE16RoundTrip(d);
      assert ElemHandle(r.1[0]) == d;
      if d != 0 {
        assert d in h1.stringIds.used;
        assert TextOf(r.0, r.1[0]) == GetString(h1, d) == CStr(TextOf(h, src[0]));
      }
      forall i | 1 <= i < |src| && ElemHandle(r.1[i]) != 0
        ensures TextOf(r.0, r.1[i]) == CStr(TextOf(h, src[i]))
      {
        assert r.1[i] == r1.1[i - 1] && rest[i - 1] == src[i];
        assert TextOf(h1, src[i]) == TextOf(h, src[i]);
      }
    }
  }

  /** With no NUL byte in any stored text, the copies read exactly the
      texts of the elements they copy. */
  lemma CopyStringsPlainTexts(h: Heaps, src: seq<seq<u8>>)
    requires forall i :: 0 <= i < |src| ==> ElemHandle(src[i]) in h.strings
    requires forall s :: s in h.strings ==> s in h.stringIds.used
    requires StringsPlain(h)
    ensures var r := CopyStrings(h, src);
      forall i :: 0 <= i < |src| && ElemHandle(r.1[i]) != 0 ==> TextOf(r.0, r.1[i]) == TextOf(h, src[i])
  {
    CopyStringsTexts(h, src);
    forall i | 0 <= i < |src| {
      CStrOfPlainText(TextOf(h, src[i]));
    }
  }

  /** The operations that only free strings keep every remaining text, so
      they bring in no NUL byte. */
  lemma FreeingKeepsPlain(h: Heaps, l: u16, dst: seq<seq<u8>>, src: seq<seq<u8>>, t: Text)
    requires StringsPlain(h)
    ensures StringsPlain(FreeStringList(h, l))
    ensures StringsPlain(UnionStrings(h, dst, src).0)
    ensures StringsPlain(RemoveString(h, dst, t).0)
    ensures StringsPlain(SubtractStrings(h, dst, src).0)
  {
  }

  /** copyStringList stores only duplicates of C strings, so it brings in
      no NUL byte. */
  lemma {:induction false} CopyStringsKeepsPlain(h: Heaps, src: seq<seq<u8>>)
    requires StringsPlain(h)
    ensures StringsPlain(CopyStrings(h, src).0)
    decreases |src|
  {
    if src != [] {
      var (h1, d) := DuplicateString(h, ElemHandle(src[0]));
      CopyStringsKeepsPlain(h1, src[1..]);
    }
  }

  /** A stored text is read back (as the C string it was given as), and no
      other handle's text changes. */
  lemma GetAfterAssign(h: Heaps, text: seq<u8>, s: u16)
    ensures AssignString(h, text).1 != 0 ==>
      GetString(AssignString(h, text).0, AssignString(h, text).1) == CStr(text)
    ensures s != AssignString(h, text).1 ==> GetString(AssignString(h, text).0, s) == GetString(h, s)
  {
  }

  /** A text without NUL bytes is stored unchanged. */
  lemma CStrOfPlainText(t: seq<u8>)
    requires 0 !in t
    ensures CStr(t) == t
  {
    if t != [] {
      CStrOfPlainText(t[1..]);
    }
  }

  /** After a free the handle reads as the empty text. */
  lemma GetAfterFree(h: Heaps, s: u16)
    ensures GetString(FreeString(h, s), s) == []
  {
  }

  /** Freeing is idempotent: a second free of the same handle changes
      neither heap nor allocator. */
  lemma FreeTwice(h: Heaps, s: u16)
    ensures FreeString(FreeString(h, s), s) == FreeString(h, s)
    ensures FreeList(FreeList(h, s), s) == FreeList(h, s)
    ensures FreeStringList(FreeStringList(h, s), s) == FreeStringList(h, s)
  {
  }

  /** A duplicate has its own fresh handle, holding the text the original
      reads as; every other handle reads as before. */
  lemma DuplicateKeepsText(h: Heaps, s: u16, other: u16)
    requires 0 !in GetString(h, s)
    ensures DuplicateString(h, s).1 != 0 ==>
      GetString(DuplicateString(h, s).0, DuplicateString(h, s).1) == GetString(h, s)
    ensures s != 0 && s in h.stringIds.used ==> DuplicateString(h, s).1 != s
    ensures other != DuplicateString(h, s).1 ==>
      GetString(DuplicateString(h, s).0, other) == GetString(h, other)
  {
    CStrOfPlainText(GetString(h, s));
  }

  /** Under ListsTracked the fresh list handle is not in the heap, which is
      the assertion assignList makes. */
  lemma AssignListFresh(h: Heaps, l: UCList)
    requires ListsTracked(h)
    ensures AssignList(h, l).1 != 0 ==> AssignList(h, l).1 !in h.lists
  {
  }
}
