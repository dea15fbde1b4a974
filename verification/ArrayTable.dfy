// The table that hands out the ids of arc delay arrays. Nothing allocated for an
// edge is ever returned to it, so its free list plays no part.
module ArrayTable {
  const BLOCK_SIZE := 128

  // The sizes of the blocks, and the next free place in the last one.
  datatype Table = Table(sizes: seq<nat>, freeBlock: nat, freeIdx: nat)

  const EMPTY := Table([], 0, 0)

  predicate TableOk(t: Table) {
    if t.sizes == [] then t == EMPTY
    else
      var s := t.sizes[|t.sizes| - 1];
      && t.freeBlock == |t.sizes| - 1 && (t.freeBlock == 0 ==> t.freeIdx >= 1)
      && BLOCK_SIZE <= s && t.freeIdx <= s && (s > BLOCK_SIZE ==> t.freeIdx == s)
  }

  function MakeBlock(t: Table, count: nat): Table {
    var size :=
      if t.sizes == [] && count > BLOCK_SIZE - 1 then count + 1 else if count > BLOCK_SIZE then count else BLOCK_SIZE;
    Table(t.sizes + [size], |t.sizes|, if t.sizes == [] then 1 else 0)
  }

  // There is room for count more in the last block.
  predicate Room(t: Table, count: nat)
    requires TableOk(t)
  {
    !(t.freeIdx == 0 && t.freeBlock == 0) && t.freeIdx + count < t.sizes[t.freeBlock]
  }

  // An array of count objects starts at the id.
  function Make(t: Table, count: nat): (r: (Table, nat))
    requires TableOk(t)
    ensures TableOk(r.0)
  {
    var u := if Room(t, count) then t else MakeBlock(t, count);
    (u.(freeIdx := u.freeIdx + count), u.freeBlock * BLOCK_SIZE + u.freeIdx)
  }

  // The largest array that stays clear of the next block's ids.
  function Limit(t: Table): nat {
    if t.sizes == [] then BLOCK_SIZE - 1 else BLOCK_SIZE
  }

  // The first id after everything allocated, if no array exceeded its block.
  ghost function End(t: Table): nat {
    t.freeBlock * BLOCK_SIZE + t.freeIdx
  }

  ghost predicate Tidy(t: Table) {
    TableOk(t) && t.freeIdx <= BLOCK_SIZE
  }

  // As long as no array is too large every array starts after all earlier ones.
  lemma MakeAfter(t: Table, count: nat)
    requires Tidy(t) && count <= Limit(t)
    ensures Tidy(Make(t, count).0) && End(t) <= Make(t, count).1 && Make(t, count).1 + count == End(Make(t, count).0)
    ensures Make(t, count).1 > 0
  {}

  // An array that is too large covers the id of the next one.
  lemma TooLargeCovers(t: Table, count: nat, next: nat)
    requires TableOk(t) && count > Limit(t)
    ensures var (u, id) := Make(t, count); id <= Make(u, next).1 < id + count
  {}

  ghost function After(counts: seq<nat>): (t: Table)
    ensures TableOk(t) && (t.sizes == [] <==> counts == [])
  {
    if counts == [] then EMPTY else Make(After(counts[..|counts| - 1]), counts[|counts| - 1]).0
  }

  // The id of allocation i.
  ghost function IdAt(counts: seq<nat>, i: nat): nat
    requires i < |counts|
  {
    Make(After(counts[..i]), counts[i]).1
  }

  ghost predicate Apart(id: nat, count: nat, id': nat, count': nat) {
    id + count <= id' || id' + count' <= id
  }

  ghost predicate AllApart(counts: seq<nat>) {
    forall i, j :: 0 <= i < j < |counts| ==> Apart(IdAt(counts, i), counts[i], IdAt(counts, j), counts[j])
  }

  function LimitAt(i: nat): nat {
    if i == 0 then 127 else 128
  }

  // The arrays are disjoint if and only if none but the last is too large.
  lemma ApartIffSmall(counts: seq<nat>)
    requires forall i :: 0 <= i < |counts| ==> counts[i] > 0
    ensures AllApart(counts) <==> forall i :: 0 <= i < |counts| - 1 ==> counts[i] <= LimitAt(i)
  {
    if forall i :: 0 <= i < |counts| - 1 ==> counts[i] <= LimitAt(i) {
      forall i, j | 0 <= i < j < |counts| ensures Apart(IdAt(counts, i), counts[i], IdAt(counts, j), counts[j]) {
        SmallBefore(counts, i, j);
      }
    } else {
      var i :| 0 <= i < |counts| - 1 && counts[i] > LimitAt(i);
      assert counts[..i + 1][..i] == counts[..i];
      TooLargeCovers(After(counts[..i]), counts[i], counts[i + 1]);
      assert !Apart(IdAt(counts, i), counts[i], IdAt(counts, i + 1), counts[i + 1]);
    }
  }

  lemma {:induction false} SmallBefore(counts: seq<nat>, i: nat, j: nat)
    requires i < j < |counts| && forall k :: 0 <= k < j ==> counts[k] <= LimitAt(k)
    ensures Tidy(After(counts[..j])) && IdAt(counts, i) + counts[i] <= End(After(counts[..j])) <= IdAt(counts, j)
    decreases j
  {
    hide Make, End, Tidy;
    TidyAfter(counts, j - 1);
    AfterNext(counts, j - 1);
    if i < j - 1 { SmallBefore(counts, i, j - 1); }
    MakeAfter(After(counts[..j - 1]), counts[j - 1]);
    NextStart(After(counts[..j]), counts[j]);
  }

  lemma AfterNext(counts: seq<nat>, i: nat)
    requires i < |counts|
    ensures After(counts[..i + 1]) == Make(After(counts[..i]), counts[i]).0
    ensures Limit(After(counts[..i])) == LimitAt(i)
  {
    assert counts[..i + 1][..i] == counts[..i];
  }

  lemma NextStart(t: Table, count: nat)
    requires Tidy(t)
    ensures End(t) <= Make(t, count).1
  {}

  lemma {:induction false} TidyAfter(counts: seq<nat>, i: nat)
    requires i <= |counts| && forall k :: 0 <= k < i ==> counts[k] <= LimitAt(k)
    ensures Tidy(After(counts[..i]))
  {
    if i > 0 {
      TidyAfter(counts, i - 1);
      AfterNext(counts, i - 1);
      MakeAfter(After(counts[..i - 1]), counts[i - 1]);
    }
  }
}
