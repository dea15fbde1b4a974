// Sorting the cells of libraries into classes of equivalent cells, by way of their
// hashes.
module EquivCells {
  import opened Sequences
  import opened CellSignature

  type Classes = map<Cell, nat>

  // Cells that end up in the same class.
  ghost predicate Together(h: string -> nat, c: Cell, d: Cell) {
    Hash(h, c) == Hash(h, d) && CellSignature.EquivCells(c, d)
  }

  // Comparable with each other, every one usable.
  ghost predicate AllComparable(cells: seq<Cell>) {
    forall c, d :: c in cells && d in cells ==> Comparable(c, d)
  }

  // The cells of done with hash k, and those together with c, in order.
  ghost function Bucket(h: string -> nat, done: seq<Cell>, k: nat): seq<Cell> {
    if done == [] then []
    else Bucket(h, done[..|done| - 1], k) + if Hash(h, done[|done| - 1]) == k then [done[|done| - 1]] else []
  }

  ghost function Members(h: string -> nat, done: seq<Cell>, c: Cell): seq<Cell> {
    if done == [] then []
    else Members(h, done[..|done| - 1], c) + if Together(h, done[|done| - 1], c) then [done[|done| - 1]] else []
  }

  lemma {:induction false} BucketIs(h: string -> nat, done: seq<Cell>, k: nat)
    ensures forall c :: c in Bucket(h, done, k) <==> c in done && Hash(h, c) == k
  {
    if done != [] {
      BucketIs(h, done[..|done| - 1], k);
      assert done == done[..|done| - 1] + [done[|done| - 1]];
    }
  }

  lemma {:induction false} MembersAre(h: string -> nat, done: seq<Cell>, c: Cell)
    ensures forall d :: d in Members(h, done, c) <==> d in done && Together(h, d, c)
  {
    if done != [] {
      hide Together;
      MembersAre(h, done[..|done| - 1], c);
      assert done == done[..|done| - 1] + [done[|done| - 1]];
    }
  }

  lemma Grown(h: string -> nat, done: seq<Cell>, x: Cell, k: nat, c: Cell)
    ensures Bucket(h, done + [x], k) == Bucket(h, done, k) + if Hash(h, x) == k then [x] else []
    ensures Members(h, done + [x], c) == Members(h, done, c) + if Together(h, x, c) then [x] else []
  {
    hide Together, Hash;
    assert (done + [x])[..|done|] == done;
  }

  // Being together is an equivalence relation on comparable cells.
  lemma TogetherEquivalence(h: string -> nat, c: Cell, d: Cell, e: Cell)
    requires AllComparable([c, d, e])
    ensures Together(h, c, c) && (Together(h, c, d) <==> Together(h, d, c))
    ensures Together(h, c, d) && Together(h, d, e) ==> Together(h, c, e)
  {
    hide Comparable, Sig, CellSignature.EquivCells, Hash;
    assert c in [c, d, e] && d in [c, d, e] && e in [c, d, e];
    ComparableBySig(c, c);
    ComparableBySig(c, d);
    ComparableBySig(d, c);
    ComparableBySig(d, e);
    ComparableBySig(c, e);
  }

  lemma {:induction false} SameMembers(h: string -> nat, done: seq<Cell>, c: Cell, d: Cell)
    requires AllComparable(done) && AllComparable([c, d]) && Together(h, c, d)
    requires forall x :: x in done ==> AllComparable([x, c, d])
    ensures Members(h, done, c) == Members(h, done, d)
  {
    if done != [] {
      var x := done[|done| - 1];
      hide Together, Comparable;
      TogetherEquivalence(h, x, c, d);
      assert x in done && AllComparable([x, c, d]);
      Permuted3(x, c, d);
      TogetherEquivalence(h, d, c, x);
      TogetherEquivalence(h, x, d, c);
      SameMembers(h, done[..|done| - 1], c, d);
    }
  }

  lemma Permuted3(x: Cell, c: Cell, d: Cell)
    requires AllComparable([x, c, d])
    ensures AllComparable([d, c, x]) && AllComparable([x, d, c]) && AllComparable([c, d, x])
  {
    hide Comparable;
    forall a, b | a in [x, c, d] && b in [x, c, d] ensures Comparable(a, b) {}
    assert forall a :: a in [d, c, x] ==> a in [x, c, d];
    assert forall a :: a in [x, d, c] ==> a in [x, c, d];
    assert forall a :: a in [c, d, x] ==> a in [x, c, d];
  }

  // ---- The state between cells -----------------------------------------------------------------

  ghost predicate Hashed(h: string -> nat, done: seq<Cell>, matches: map<nat, seq<Cell>>) {
    forall k :: (k in matches <==> Bucket(h, done, k) != []) && (k in matches ==> matches[k] == Bucket(h, done, k))
  }

  // c is in a class exactly if it is not alone; its list is that of all its class.
  ghost predicate ClassOf(h: string -> nat, done: seq<Cell>, classes: Classes, lists: seq<seq<Cell>>, c: Cell) {
    ClassIs(Members(h, done, c), classes, lists, c)
  }

  ghost predicate ClassIs(members: seq<Cell>, classes: Classes, lists: seq<seq<Cell>>, c: Cell) {
    && (c in classes <==> |members| >= 2)
    && (c in classes ==>
          && classes[c] < |lists| && lists[classes[c]] == members
          && forall d :: d in members ==> d in classes && classes[d] == classes[c])
  }

  ghost predicate Classified(h: string -> nat, done: seq<Cell>, classes: Classes, lists: seq<seq<Cell>>,
                             unique: seq<Cell>) {
    && (forall c :: c in classes ==> c in done) && (forall c :: c in done ==> ClassOf(h, done, classes, lists, c))
    && |unique| == |lists|
    && forall i :: 0 <= i < |lists| ==>
         lists[i] != [] && unique[i] == lists[i][0] && unique[i] in classes && classes[unique[i]] == i
  }

  // Two different cells share a list exactly when they are together.
  lemma SharedIffTogether(h: string -> nat, done: seq<Cell>, classes: Classes, lists: seq<seq<Cell>>, unique: seq<Cell>,
                          c: Cell, d: Cell)
    requires AllComparable(done) && Distinct(done) && Classified(h, done, classes, lists, unique) && c in done
    requires d in done && c != d
    ensures c in classes && d in classes && classes[c] == classes[d] <==> Together(h, c, d)
  {
    assert ClassOf(h, done, classes, lists, c) && ClassOf(h, done, classes, lists, d);
    MembersAre(h, done, c);
    MembersAre(h, done, d);
    TogetherIn(h, done, c, d);
    hide Together, Members, Comparable;
    if Together(h, c, d) {
      TwoMembers(Members(h, done, d), c, d);
      TwoMembers(Members(h, done, c), c, d);
    }
  }

  lemma TwoMembers(s: seq<Cell>, c: Cell, d: Cell)
    requires c in s && d in s && c != d
    ensures |s| >= 2
  {}

  lemma TogetherIn(h: string -> nat, done: seq<Cell>, c: Cell, d: Cell)
    requires AllComparable(done) && c in done && d in done
    ensures Together(h, c, c) && Together(h, d, d) && (Together(h, c, d) <==> Together(h, d, c))
  {
    Three(done, c, d, c);
    Three(done, d, c, d);
    TogetherEquivalence(h, c, d, c);
    TogetherEquivalence(h, d, c, d);
  }

  lemma Three(done: seq<Cell>, c: Cell, d: Cell, e: Cell)
    requires AllComparable(done) && c in done && d in done && e in done
    ensures AllComparable([c, d, e])
  {
    hide Comparable;
    assert forall a :: a in [c, d, e] ==> a in done;
  }

  // With equal clear and preset outputs, exactly when they are equivalent.
  lemma SharedIffEquivalent(h: string -> nat, done: seq<Cell>, classes: Classes, lists: seq<seq<Cell>>,
                            unique: seq<Cell>, c: Cell, d: Cell)
    requires AllComparable(done) && Distinct(done) && Classified(h, done, classes, lists, unique) && c in done
    requires d in done && c != d
    requires Word(ClearPreset(c)) == Word(ClearPreset(d))
    ensures c in classes && d in classes && classes[c] == classes[d] <==> CellSignature.EquivCells(c, d)
  {
    SharedIffTogether(h, done, classes, lists, unique, c, d);
    if CellSignature.EquivCells(c, d) { EquivHashesAlikeIff(h, c, d); }
  }

  // ---- One more cell ---------------------------------------------------------------------------

  lemma BucketGrows(h: string -> nat, done: seq<Cell>, matches: map<nat, seq<Cell>>, x: Cell)
    requires Hashed(h, done, matches)
    ensures var k := Hash(h, x); Hashed(h, done + [x], matches[k := (if k in matches then matches[k] else []) + [x]])
  {
    hide Hash;
    forall k { Grown(h, done, x, k, x); }
    hide Bucket;
  }

  // Everything in the class of c is in the class of m, if they are together.
  lemma SameClass(h: string -> nat, done: seq<Cell>, x: Cell, c: Cell, m: Cell)
    requires AllComparable(done + [x]) && c in done + [x] && m in done && Together(h, m, x)
    ensures Together(h, x, c) <==> Together(h, m, c)
    ensures Together(h, m, c) <==> Together(h, c, m)
    ensures Together(h, m, c) ==> Members(h, done, c) == Members(h, done, m)
  {
    hide Together, Members, Comparable;
    assert x in done + [x] && m in done + [x];
    Three(done + [x], x, m, c);
    Three(done + [x], m, x, c);
    Three(done + [x], m, c, m);
    TogetherEquivalence(h, x, m, c);
    TogetherEquivalence(h, m, x, c);
    TogetherEquivalence(h, m, c, m);
    if Together(h, m, c) {
      AllWith(done + [x], done, m, c);
      SameMembers(h, done, m, c);
    }
  }

  lemma AllWith(all: seq<Cell>, done: seq<Cell>, c: Cell, d: Cell)
    requires AllComparable(all) && c in all && d in all && forall x :: x in done ==> x in all
    ensures AllComparable(done) && AllComparable([c, d]) && forall x :: x in done ==> AllComparable([x, c, d])
  {
    hide Comparable;
    assert forall a :: a in [c, d] ==> a in all;
    forall x | x in done ensures AllComparable([x, c, d]) { Three(all, x, c, d); }
  }

  ghost predicate Ready(h: string -> nat, done: seq<Cell>, classes: Classes, lists: seq<seq<Cell>>, unique: seq<Cell>,
                        x: Cell) {
    AllComparable(done + [x]) && Distinct(done + [x]) && Classified(h, done, classes, lists, unique)
  }

  // What c has to do with the class of m, when x comes into it.
  ghost predicate Related(h: string -> nat, done: seq<Cell>, classes: Classes, lists: seq<seq<Cell>>, x: Cell, c: Cell,
                          m: Cell, t: bool)
  {
    && (c in done ==> ClassIs(Members(h, done, c), classes, lists, c) && c in Members(h, done, c))
    && ClassIs(Members(h, done, m), classes, lists, m) && m in Members(h, done, m)
    && (forall d :: d in Members(h, done, c) ==> d in done) && x !in classes && x !in done && m in done
    && (t ==> Members(h, done, c) == Members(h, done, m)) && (!t ==> c !in Members(h, done, m)) && (c == x ==> t)
    && Members(h, done + [x], c) == Members(h, done, c) + if t then [x] else []
  }

  lemma RelatedIs(h: string -> nat, done: seq<Cell>, classes: Classes, lists: seq<seq<Cell>>, unique: seq<Cell>,
                  x: Cell, m: Cell, c: Cell)
    requires Ready(h, done, classes, lists, unique, x) && m in done && Together(h, m, x) && c in done + [x]
    ensures Related(h, done, classes, lists, x, c, m, Together(h, c, m))
  {
    hide Together, Members, Comparable, Bucket, Hash, ClassIs, Classified, Distinct;
    NotDone(done, x);
    ClassesAre(h, done, classes, lists, unique);
    SameClass(h, done, x, c, m);
    Grown(h, done, x, 0, c);
    MembersAre(h, done, c);
    MembersAre(h, done, m);
    TogetherIn(h, done + [x], c, m);
    TogetherIn(h, done + [x], m, x);
  }

  lemma ClassesAre(h: string -> nat, done: seq<Cell>, classes: Classes, lists: seq<seq<Cell>>, unique: seq<Cell>)
    requires Classified(h, done, classes, lists, unique)
    ensures forall c :: c in done ==> ClassIs(Members(h, done, c), classes, lists, c)
    ensures forall c :: c in classes ==> c in done
  {
    hide ClassIs, Members;
    forall c | c in done ensures ClassIs(Members(h, done, c), classes, lists, c) {
      assert ClassOf(h, done, classes, lists, c);
    }
  }

  // x joins the list of m.
  lemma Joins(h: string -> nat, done: seq<Cell>, classes: Classes, lists: seq<seq<Cell>>, unique: seq<Cell>, x: Cell,
              m: Cell)
    requires Ready(h, done, classes, lists, unique, x) && m in done && Together(h, m, x) && m in classes
    ensures classes[m] < |lists|
    ensures Classified(h, done + [x], classes[x := classes[m]], lists[classes[m] := lists[classes[m]] + [x]], unique)
  {
    hide Together, Members, Comparable, Related, ClassIs;
    NotDone(done, x);
    RelatedIs(h, done, classes, lists, unique, x, m, m);
    InRange(h, done, classes, lists, x, m);
    forall c | c in done + [x]
      ensures ClassOf(h, done + [x], classes[x := classes[m]], lists[classes[m] := lists[classes[m]] + [x]], c)
    {
      RelatedIs(h, done, classes, lists, unique, x, m, c);
      JoinsClass(h, done, classes, lists, x, m, c, Together(h, c, m));
    }
  }

  lemma InRange(h: string -> nat, done: seq<Cell>, classes: Classes, lists: seq<seq<Cell>>, x: Cell, m: Cell)
    requires Related(h, done, classes, lists, x, m, m, Together(h, m, m)) && m in classes
    ensures classes[m] < |lists|
  {}

  lemma NotDone(done: seq<Cell>, x: Cell)
    requires Distinct(done + [x])
    ensures x !in done && Distinct(done)
  {
    var all := done + [x];
    assert forall i :: 0 <= i < |done| ==> all[i] == done[i] && all[i] != all[|done|];
  }

  lemma JoinsClass(h: string -> nat, done: seq<Cell>, classes: Classes, lists: seq<seq<Cell>>, x: Cell, m: Cell,
                   c: Cell, t: bool)
    requires Related(h, done, classes, lists, x, c, m, t) && m in classes && classes[m] < |lists| && c in done + [x]
    ensures ClassOf(h, done + [x], classes[x := classes[m]], lists[classes[m] := lists[classes[m]] + [x]], c)
  {
    hide Members;
  }

  // x and m, which was alone, make a new class.
  lemma Pairs(h: string -> nat, done: seq<Cell>, classes: Classes, lists: seq<seq<Cell>>, unique: seq<Cell>, x: Cell,
              m: Cell)
    requires Ready(h, done, classes, lists, unique, x) && m in done && Together(h, m, x) && m !in classes
    ensures Classified(h, done + [x], classes[m := |lists|][x := |lists|], lists + [[m, x]], unique + [m])
  {
    hide Together, Members, Comparable, Related, ClassIs;
    NotDone(done, x);
    forall c | c in done + [x]
      ensures ClassOf(h, done + [x], classes[m := |lists|][x := |lists|], lists + [[m, x]], c)
    {
      RelatedIs(h, done, classes, lists, unique, x, m, c);
      PairsClass(h, done, classes, lists, x, m, c, Together(h, c, m));
    }
  }

  lemma PairsClass(h: string -> nat, done: seq<Cell>, classes: Classes, lists: seq<seq<Cell>>, x: Cell, m: Cell,
                   c: Cell, t: bool)
    requires Related(h, done, classes, lists, x, c, m, t) && m !in classes && c in done + [x]
    ensures ClassOf(h, done + [x], classes[m := |lists|][x := |lists|], lists + [[m, x]], c)
  {
    hide Members;
    Alone(Members(h, done, m), m);
  }

  lemma Alone(s: seq<Cell>, m: Cell)
    requires |s| < 2 && m in s
    ensures s == [m]
  {}

  // x is alone.
  lemma StaysAlone(h: string -> nat, done: seq<Cell>, classes: Classes, lists: seq<seq<Cell>>, unique: seq<Cell>,
                   x: Cell)
    requires Ready(h, done, classes, lists, unique, x) && forall m :: m in done ==> !Together(h, m, x)
    ensures Classified(h, done + [x], classes, lists, unique)
  {
    hide Together, Members, Comparable, ClassIs;
    NotDone(done, x);
    forall c | c in done + [x] ensures ClassOf(h, done + [x], classes, lists, c) {
      AloneClass(h, done, classes, lists, unique, x, c);
    }
  }

  lemma AloneClass(h: string -> nat, done: seq<Cell>, classes: Classes, lists: seq<seq<Cell>>, unique: seq<Cell>,
                   x: Cell, c: Cell)
    requires Ready(h, done, classes, lists, unique, x) && (forall m :: m in done ==> !Together(h, m, x))
    requires c in done + [x]
    ensures ClassOf(h, done + [x], classes, lists, c)
  {
    hide Together, Members, Comparable, ClassIs, Bucket, Hash;
    NotDone(done, x);
    Grown(h, done, x, 0, c);
    TogetherIn(h, done + [x], c, x);
    if c == x {
      NoMembers(h, done, classes, lists, x);
    } else {
      assert c in done && ClassOf(h, done, classes, lists, c);
      assert Members(h, done + [x], c) == Members(h, done, c) + [] == Members(h, done, c);
    }
  }

  lemma NoMembers(h: string -> nat, done: seq<Cell>, classes: Classes, lists: seq<seq<Cell>>, x: Cell)
    requires x !in classes && forall m :: m in done ==> !Together(h, m, x)
    ensures Members(h, done, x) == [] && ClassIs([] + [x], classes, lists, x)
  {
    NoneTogether(h, done, x);
  }

  lemma {:induction false} NoneTogether(h: string -> nat, done: seq<Cell>, x: Cell)
    requires forall m :: m in done ==> !Together(h, m, x)
    ensures Members(h, done, x) == []
  {
    if done != [] {
      hide Together;
      NoneTogether(h, done[..|done| - 1], x);
      assert done[|done| - 1] in done;
    }
  }

  // ---- Finding the classes -----------------------------------------------------------------------

  // The usable cells of a library, in order.
  ghost function Usable(library: seq<Cell>): seq<Cell> {
    if library == [] then []
    else Usable(library[..|library| - 1]) + if library[|library| - 1].dontUse then [] else [library[|library| - 1]]
  }

  class EquivCells {
    var equivCells: Classes          // the shared list of every cell that has one
    var lists: seq<seq<Cell>>
    var uniqueEquivCells: seq<Cell>

    constructor (h: string -> nat)
      ensures Valid(h, [])
    {
      equivCells, lists, uniqueEquivCells := map[], [], [];
    }

    ghost predicate Valid(h: string -> nat, done: seq<Cell>)
      reads this
    {
      Classified(h, done, equivCells, lists, uniqueEquivCells)
    }

    // Goes through a library; hashMatches are the cells met so far, by hash.
    method FindEquivCells(library: seq<Cell>, hashMatches: map<nat, seq<Cell>>, h: string -> nat, ghost done: seq<Cell>)
      returns (hashMatches': map<nat, seq<Cell>>)
      requires Valid(h, done) && Hashed(h, done, hashMatches)
      requires AllComparable(done + Usable(library)) && Distinct(done + Usable(library))
      modifies this
      ensures Valid(h, done + Usable(library)) && Hashed(h, done + Usable(library), hashMatches')
    {
      hide Valid, Hashed, AllComparable, Distinct, Hash, Classified;
      hashMatches' := hashMatches;
      ghost var now := done;
      UsableStart(library, done);
      for i := 0 to |library|
        invariant now == done + Usable(library[..i]) && Valid(h, now) && Hashed(h, now, hashMatches')
      {
        var cell := library[i];
        UsableNext(library, i, done);
        if !cell.dontUse {
          Enough(done + Usable(library), now, cell);
          hashMatches' := AddCell(cell, hashMatches', h, now);
          now := now + [cell];
        }
      }
      assert library[..|library|] == library;
    }

    method AddCell(cell: Cell, hashMatches: map<nat, seq<Cell>>, h: string -> nat, ghost done: seq<Cell>)
      returns (hashMatches': map<nat, seq<Cell>>)
      requires Valid(h, done) && Hashed(h, done, hashMatches) && AllComparable(done + [cell]) && Distinct(done + [cell])
      modifies this
      ensures Valid(h, done + [cell]) && Hashed(h, done + [cell], hashMatches')
    {
      hide Valid, Hashed, AllComparable, Distinct, Hash, Bucket, Classified;
      var hash := HashCell(h, cell);
      BucketGrows(h, done, hashMatches, cell);
      HashedIs(h, done, hashMatches, hash);
      if hash in hashMatches {
        var matches := hashMatches[hash];
        AddToClass(cell, matches, h, done);
        hashMatches' := hashMatches[hash := matches + [cell]];
      } else {
        NoMatch(h, done, [], cell);
        Stays(cell, h, done);
        hashMatches' := hashMatches[hash := [cell]];
        assert [] + [cell] == [cell];
      }
    }

    // The first of the matches that is equivalent decides the class.
    method AddToClass(cell: Cell, matches: seq<Cell>, h: string -> nat, ghost done: seq<Cell>)
      requires Valid(h, done) && AllComparable(done + [cell]) && Distinct(done + [cell])
      requires matches == Bucket(h, done, Hash(h, cell))
      modifies this
      ensures Valid(h, done + [cell])
    {
      hide Valid, AllComparable, Distinct, Hash, Bucket, Classified, CellSignature.EquivCells;
      BucketIs(h, done, Hash(h, cell));
      for i := 0 to |matches|
        invariant Valid(h, done) && forall k :: 0 <= k < i ==> !CellSignature.EquivCells(matches[k], cell)
      {
        var match_ := matches[i];
        assert match_ in matches;
        NamedPgPorts(done, cell);
        var equiv := CompareCells(match_, cell);
        if equiv {
          Join(match_, cell, h, done);
          return;
        }
      }
      NoMatch(h, done, matches, cell);
      Stays(cell, h, done);
    }

    method Join(match_: Cell, cell: Cell, h: string -> nat, ghost done: seq<Cell>)
      requires Valid(h, done) && AllComparable(done + [cell]) && Distinct(done + [cell])
      requires match_ in done && Hash(h, match_) == Hash(h, cell) && CellSignature.EquivCells(match_, cell)
      modifies this
      ensures Valid(h, done + [cell])
    {
      hide AllComparable, Distinct, Hash, ClassOf, Classified, CellSignature.EquivCells;
      if match_ in equivCells {
        Joins(h, done, equivCells, lists, uniqueEquivCells, cell, match_);
      } else {
        Pairs(h, done, equivCells, lists, uniqueEquivCells, cell, match_);
      }
      if match_ !in equivCells {
        lists := lists + [[match_]];
        uniqueEquivCells := uniqueEquivCells + [match_];
        equivCells := equivCells[match_ := |lists| - 1];
        LastGrows(old(lists), match_, cell);
      }
      var equivs := equivCells[match_];
      lists := lists[equivs := lists[equivs] + [cell]];
      equivCells := equivCells[cell := equivs];
    }

    ghost method Stays(cell: Cell, h: string -> nat, done: seq<Cell>)
      requires Valid(h, done) && AllComparable(done + [cell]) && Distinct(done + [cell])
      requires forall m :: m in done ==> !Together(h, m, cell)
      ensures Valid(h, done + [cell])
    {
      hide Together, AllComparable, Distinct, Classified;
      StaysAlone(h, done, equivCells, lists, uniqueEquivCells, cell);
    }
  }

  lemma LastGrows(lists: seq<seq<Cell>>, m: Cell, x: Cell)
    ensures var l := lists + [[m]]; l[|lists| := l[|lists|] + [x]] == lists + [[m, x]]
  {
    assert [m] + [x] == [m, x];
  }

  lemma NamedPgPorts(done: seq<Cell>, cell: Cell)
    requires AllComparable(done + [cell])
    ensures PgByName(cell)
  {
    assert cell in done + [cell] && Comparable(cell, cell);
  }

  lemma HashedIs(h: string -> nat, done: seq<Cell>, matches: map<nat, seq<Cell>>, k: nat)
    requires Hashed(h, done, matches)
    ensures if k in matches then matches[k] == Bucket(h, done, k) else Bucket(h, done, k) == []
  {}

  // No cell of the same hash is equivalent: no cell is together with this one.
  lemma NoMatch(h: string -> nat, done: seq<Cell>, matches: seq<Cell>, cell: Cell)
    requires matches == Bucket(h, done, Hash(h, cell))
    requires forall i :: 0 <= i < |matches| ==> !CellSignature.EquivCells(matches[i], cell)
    ensures forall m :: m in done ==> !Together(h, m, cell)
  {
    hide CellSignature.EquivCells, Hash, Bucket;
    BucketIs(h, done, Hash(h, cell));
    forall m | m in done ensures !Together(h, m, cell) {
      if Hash(h, m) == Hash(h, cell) { assert m in matches; }
    }
  }

  lemma UsableStart(library: seq<Cell>, done: seq<Cell>)
    ensures done + Usable(library[..0]) == done
  {}

  lemma UsableNext(library: seq<Cell>, i: nat, done: seq<Cell>)
    requires i < |library|
    ensures done + Usable(library[..i + 1])
         == (done + Usable(library[..i])) + if library[i].dontUse then [] else [library[i]]
    ensures !library[i].dontUse ==> Within((done + Usable(library[..i])) + [library[i]], done + Usable(library))
  {
    UsableOne(library, i);
    UsablePrefix(library, i + 1);
    hide Usable;
    WithinBoth(done, Usable(library[..i]), library[i], Usable(library[..i + 1]), Usable(library));
  }

  lemma UsableOne(library: seq<Cell>, i: nat)
    requires i < |library|
    ensures Usable(library[..i + 1]) == Usable(library[..i]) + if library[i].dontUse then [] else [library[i]]
  {
    assert library[..i + 1][..i] == library[..i];
  }

  lemma WithinBoth(done: seq<Cell>, u: seq<Cell>, x: Cell, u': seq<Cell>, all: seq<Cell>)
    requires Within(u', all) && u' == u + if x.dontUse then [] else [x]
    ensures done + u' == (done + u) + if x.dontUse then [] else [x]
    ensures !x.dontUse ==> Within((done + u) + [x], done + all)
  {}

  ghost predicate Within(s: seq<Cell>, t: seq<Cell>) {
    |s| <= |t| && s == t[..|s|]
  }

  lemma {:induction false} UsablePrefix(library: seq<Cell>, i: nat)
    requires i <= |library|
    ensures Within(Usable(library[..i]), Usable(library))
    decreases |library| - i
  {
    if i == |library| {
      assert library[..i] == library;
    } else {
      UsablePrefix(library, i + 1);
      assert library[..i + 1][..i] == library[..i];
    }
  }

  lemma Enough(all: seq<Cell>, now: seq<Cell>, cell: Cell)
    requires AllComparable(all) && Distinct(all) && Within(now + [cell], all)
    ensures AllComparable(now + [cell]) && Distinct(now + [cell])
  {
    hide Comparable;
    forall c | c in now + [cell] ensures c in all {}
  }
}
