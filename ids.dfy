/** The handle allocator behind the string and list heaps: it hands out ids in
    [1, 65534], the lowest one not in use, and 0 once every id is taken. */
module Ids {
  import opened Words

  const FIRST_ID: u16 := 1
  const LAST_ID: u16 := 65534

  datatype IdMan = IdMan(used: set<u16>)

  /** The lowest id in [from, LAST_ID] that is not in use, or 0 if there is
      none. */
  function LowestFree(used: set<u16>, from: nat): (r: u16)
    requires from >= FIRST_ID
    ensures r != 0 ==> from <= r <= LAST_ID && r !in used
    ensures r != 0 ==> forall i: u16 :: from <= i < r ==> i in used
    ensures r == 0 <==> forall i: u16 :: from <= i <= LAST_ID ==> i in used
    decreases LAST_ID + 1 - from
  {
    if from > LAST_ID then 0
    else if from as u16 !in used then from as u16
    else LowestFree(used, from + 1)
  }

  /** getNewID: the id handed out and the allocator with it marked used. */
  function NewId(m: IdMan): (r: (IdMan, u16))
    ensures r.1 != 0 ==> FIRST_ID <= r.1 <= LAST_ID && r.1 !in m.used && r.0.used == m.used + {r.1}
    ensures r.1 == 0 ==> r.0 == m
  {
    var id := LowestFree(m.used, FIRST_ID);
    if id == 0 then (m, 0) else (IdMan(m.used + {id}), id)
  }

  /** clearID: the id returns to the pool; an id not in use stays as it was. */
  function ClearId(m: IdMan, id: u16): (r: IdMan)
    ensures id !in r.used
    ensures forall i :: i in m.used && i != id ==> i in r.used
    ensures id !in m.used ==> r == m
  {
    IdMan(m.used - {id})
  }

  /** The allocator gives out the lowest free id, and fails exactly when the
      whole range [1, 65534] is in use. */
  lemma NewIdLowest(m: IdMan)
    ensures NewId(m).1 == 0 <==> forall i: u16 :: FIRST_ID <= i <= LAST_ID ==> i in m.used
    ensures forall i: u16 :: FIRST_ID <= i < NewId(m).1 ==> i in m.used
  {
  }

  /** A freed id is the next one handed out when nothing below it is free. */
  lemma FreedIdReused(m: IdMan, id: u16)
    requires FIRST_ID <= id <= LAST_ID
    requires forall i: u16 :: FIRST_ID <= i < id ==> i in m.used
    ensures NewId(ClearId(m, id)).1 == id
  {
  }
}
