/** The linearization without registered abstract classes, against the host's own C3 order: when the
    two agree, and what a dispatch then answers. */
module PlainOrder {
  import opened Results
  import opened Sequences
  import opened C3Merge
  import opened Dispatch
  import opened Linearization
  import opened ComposedOrder

  /** The lists merged for a class whose bases have the linearizations the host gave them. */
  function Split(h: Hierarchy, c: Class): seq<seq<Class>> {
    [[c]] + Orders(h, h.Bases(c)) + [Explicit(h, c), [], Other(h, c)]
  }

  /** Place p of the class's order is reached, an abstract base is still to come, and an ordinary
      base z that waits for nothing but it is next in the order of base i, before the class due at
      p is next in the order of any base. */
  ghost predicate Overtakes(h: Hierarchy, c: Class, p: nat, i: nat, z: Class) {
    var m, bases := h.Mro(c), h.Bases(c);
    && 0 < p < |m| && i < |bases| && z in Other(h, c)
    && (exists e :: e in Explicit(h, c) && e !in m[..p])
    && IsNext(h.Mro(bases[i]), m[..p], z) && !Waits(Other(h, c), m[..p], z)
    && (forall k :: 0 <= k < |bases| ==> !Waits(h.Mro(bases[k]), m[..p], z))
    && forall k :: 0 <= k <= i ==> !IsNext(h.Mro(bases[k]), m[..p], m[p])
  }

  ghost predicate Overtaken(h: Hierarchy, c: Class) {
    exists p, i, z :: Overtakes(h, c, p, i, z)
  }

  // ----- facts about the host's order -----

  lemma NextOfHead(s: seq<Class>, done: seq<Class>, x: Class)
    requires s != [] && s[0] !in done
    ensures IsNext(s, done, x) <==> x == s[0]
  {
  }

  lemma NeverWaits(c: Class, done: seq<Class>, x: Class)
    ensures !Waits([c], done, x) && !Waits([], done, x)
    ensures c in done ==> !IsNext([c], done, x)
    ensures !IsNext([], done, x)
  {
  }

  lemma WaitsInPart(s: seq<Class>, b: nat, done: seq<Class>, x: Class)
    requires b <= |s|
    ensures Waits(s[..b], done, x) || Waits(s[b..], done, x) ==> Waits(s, done, x)
    ensures Waits(s, done, x) && !Waits(s[..b], done, x) && !Waits(s[b..], done, x) ==>
      x in s[b..] && exists e :: e in s[..b] && e !in done
  {
    if i, j :| 0 <= i < j < |s[b..]| && s[b..][i] !in done && s[b..][j] == x {
      assert s[i + b] == s[b..][i] && s[j + b] == s[b..][j];
    }
    if i, j :| 0 <= i < j < |s| && s[i] !in done && s[j] == x {
      if j < b {
        assert s[..b][i] == s[i] && s[..b][j] == s[j];
      } else if i >= b {
        assert s[b..][i - b] == s[i] && s[b..][j - b] == s[j];
      } else {
        assert s[b..][j - b] == x && s[..b][i] == s[i];
      }
    }
  }

  lemma BasesAt(h: Hierarchy, c: Class)
    ensures var n := |h.Bases(c)|;
      && |Standard(h, c)| == n + 2 && |Split(h, c)| == n + 4
      && Standard(h, c)[0] == Split(h, c)[0] == [c]
      && Standard(h, c)[n + 1] == h.Bases(c)
      && Split(h, c)[n + 1] == Explicit(h, c) && Split(h, c)[n + 2] == [] && Split(h, c)[n + 3] == Other(h, c)
  {
  }

  lemma BaseAt(h: Hierarchy, c: Class, k: nat)
    requires 0 < k <= |h.Bases(c)|
    ensures k < |Standard(h, c)| && Standard(h, c)[k] == h.Mro(h.Bases(c)[k - 1])
    ensures k < |Split(h, c)| && Split(h, c)[k] == h.Mro(h.Bases(c)[k - 1])
  {
  }

  /** A class comes first in its own order. */
  lemma OrderStarts(h: Hierarchy, c: Class)
    requires Ordered(h) && c in h.mro
    ensures h.Mro(c) != [] && h.Mro(c)[0] == c
  {
    BasesAt(h, c);
    forall k | 0 < k < |Standard(h, c)| ensures c !in Standard(h, c)[k] { NotInherited(h, c, k); }
    hide Standard, IsC3;
    AloneFirst(Standard(h, c), h.Mro(c), c);
  }

  lemma NotInherited(h: Hierarchy, c: Class, k: nat)
    requires Ordered(h) && c in h.mro && 0 < k < |Standard(h, c)|
    ensures c !in Standard(h, c)[k]
  {
    BasesAt(h, c);
    if k <= |h.Bases(c)| {
      BaseAt(h, c, k);
      var d := h.Bases(c)[k - 1];
      assert d in h.Bases(c);
      hide Standard;
      BaseOlder(h, c, d);
      if c in h.Mro(d) { OrderBelow(h, d, c); }
    } else {
      hide Standard;
      if c in h.Bases(c) { BaseOlder(h, c, c); }
    }
  }

  lemma BasesOnce(h: Hierarchy, c: Class)
    requires Ordered(h) && c in h.mro
    ensures Keeps(h.Mro(c), h.Bases(c)) && NoRepeats(h.Mro(c)) && NoRepeats(h.Bases(c))
  {
    OrderMembers(h, c);
    assert h.Bases(c) in Standard(h, c);
  }

  lemma FreeParts(h: Hierarchy, c: Class, done: seq<Class>, x: Class)
    ensures Free(Standard(h, c), done, x) <==>
      !Waits(h.Bases(c), done, x) && forall k :: 0 <= k < |h.Bases(c)| ==> !Waits(h.Mro(h.Bases(c)[k]), done, x)
    ensures Free(Split(h, c), done, x) <==>
      !Waits(Explicit(h, c), done, x) && !Waits(Other(h, c), done, x)
      && forall k :: 0 <= k < |h.Bases(c)| ==> !Waits(h.Mro(h.Bases(c)[k]), done, x)
  {
    var n := |h.Bases(c)|;
    BasesAt(h, c);
    NeverWaits(c, done, x);
    forall k | 0 < k <= n
      ensures Standard(h, c)[k] == h.Mro(h.Bases(c)[k - 1]) && Split(h, c)[k] == h.Mro(h.Bases(c)[k - 1])
    {
      BaseAt(h, c, k);
    }
    hide Waits, Standard, Split, Explicit, Other;
    var s, t := Standard(h, c), Split(h, c);
    if Free(s, done, x) {
      forall k | 0 <= k < n ensures !Waits(h.Mro(h.Bases(c)[k]), done, x) { assert !Waits(s[k + 1], done, x); }
    }
    if Free(t, done, x) {
      forall k | 0 <= k < n ensures !Waits(h.Mro(h.Bases(c)[k]), done, x) { assert !Waits(t[k + 1], done, x); }
    }
  }

  /** What is free without the order of the bases as a whole and not with it is an ordinary base that
      an abstract base comes before. */
  lemma FreeSplit(h: Hierarchy, c: Class, done: seq<Class>, x: Class)
    ensures Free(Standard(h, c), done, x) ==> Free(Split(h, c), done, x)
    ensures Free(Split(h, c), done, x) && !Free(Standard(h, c), done, x) ==>
      x in Other(h, c) && exists e :: e in Explicit(h, c) && e !in done
  {
    FreeParts(h, c, done, x);
    WaitsInPart(h.Bases(c), Boundary(h, h.Bases(c)), done, x);
    hide Waits, Standard, Split, Boundary;
  }

  lemma DueAt(h: Hierarchy, c: Class, p: nat)
    requires Ordered(h) && c in h.mro && p < |h.Mro(c)|
    ensures Picked(Standard(h, c), h.Mro(c)[..p], h.Mro(c)[p])
  {
    hide Picked, Standard;
  }

  /** From the second place on, the class itself is done. */
  lemma Begun(h: Hierarchy, c: Class, p: nat)
    requires Ordered(h) && c in h.mro && 0 < p <= |h.Mro(c)|
    ensures c in h.Mro(c)[..p]
  {
    OrderStarts(h, c);
    assert h.Mro(c)[..p][0] == c;
  }

  /** The list that the class due at place p > 0 is taken from is the order of a base. */
  lemma TakenFrom(h: Hierarchy, c: Class, p: nat) returns (k: nat)
    requires Ordered(h) && c in h.mro && 0 < p < |h.Mro(c)|
    ensures k < |h.Bases(c)|
    ensures FirstNext(Standard(h, c), h.Mro(c)[..p], h.Mro(c)[p], k + 1)
    ensures Free(Standard(h, c), h.Mro(c)[..p], h.Mro(c)[p])
  {
    var done, y := h.Mro(c)[..p], h.Mro(c)[p];
    hide *;
    DueAt(h, c, p);
    Begun(h, c, p);
    var j := PickedFrom(Standard(h, c), done, y);
    NotFromEnds(h, c, done, y, j);
    k := j - 1;
  }

  lemma PickedFrom(lists: seq<seq<Class>>, done: seq<Class>, x: Class) returns (k: nat)
    requires Picked(lists, done, x)
    ensures FirstNext(lists, done, x, k) && Free(lists, done, x)
  {
    hide FirstNext, Free;
    k :| FirstNext(lists, done, x, k);
  }

  lemma NotFromEnds(h: Hierarchy, c: Class, done: seq<Class>, y: Class, j: nat)
    requires Ordered(h) && c in h.mro && c in done
    requires Free(Standard(h, c), done, y) && FirstNext(Standard(h, c), done, y, j)
    ensures 0 < j <= |h.Bases(c)|
  {
    hide Standard, Ordered, IsNext, Free;
    BasesAt(h, c);
    NeverWaits(c, done, y);
    if j == |h.Bases(c)| + 1 { var i := NextBase(h, c, done, y); }
  }

  /** A base that is next among the bases is next in its own order. */
  lemma NextBase(h: Hierarchy, c: Class, done: seq<Class>, y: Class) returns (i: nat)
    requires Ordered(h) && c in h.mro && IsNext(h.Bases(c), done, y)
    ensures i < |h.Bases(c)| && i + 1 < |Standard(h, c)| && IsNext(Standard(h, c)[i + 1], done, y)
  {
    i := NextPlace(h.Bases(c), done, y);
    assert h.Bases(c)[i] in h.Bases(c) && y !in done;
    hide Ordered, IsNext, Standard;
    BaseOlder(h, c, y);
    OrderStarts(h, y);
    NextOfHead(h.Mro(y), done, y);
    BaseAt(h, c, i + 1);
  }

  lemma NextPlace(s: seq<Class>, done: seq<Class>, x: Class) returns (i: nat)
    requires IsNext(s, done, x)
    ensures i < |s| && s[i] == x
  {
    i :| 0 <= i < |s| && s[i] == x && forall j :: 0 <= j < i ==> s[j] in done;
  }

  /** Whether the class due at place p is also picked from the split lists. */
  lemma PickedSplit(h: Hierarchy, c: Class, p: nat)
    requires Ordered(h) && c in h.mro && 0 < p < |h.Mro(c)|
    ensures Picked(Split(h, c), h.Mro(c)[..p], h.Mro(c)[p]) <==> !exists i, z :: Overtakes(h, c, p, i, z)
  {
    hide Standard, Split, Ordered, IsNext, Waits, Explicit, Other, Overtakes, Free;
    var t, done, y := Split(h, c), h.Mro(c)[..p], h.Mro(c)[p];
    var k := TakenFrom(h, c, p);
    FreeSplit(h, c, done, y);
    if i: nat, z :| Overtakes(h, c, p, i, z) {
      if j: nat :| FirstNext(t, done, y, j) { NotPassed(h, c, p, i, z, j); }
    } else {
      BasesAt(h, c);
      BaseAt(h, c, k + 1);
      forall i: nat, z | i < k + 1 && IsNext(t[i], done, z) ensures !Free(t, done, z) {
        if Free(t, done, z) { Passed(h, c, p, k, i, z); }
      }
      assert FirstNext(t, done, y, k + 1);
    }
  }

  /** An overtaking base keeps the class due at p from being picked. */
  lemma NotPassed(h: Hierarchy, c: Class, p: nat, i: nat, z: Class, j: nat)
    requires Ordered(h) && c in h.mro && Overtakes(h, c, p, i, z)
    ensures !FirstNext(Split(h, c), h.Mro(c)[..p], h.Mro(c)[p], j)
  {
    var t, done, y := Split(h, c), h.Mro(c)[..p], h.Mro(c)[p];
    hide Standard, Split, Ordered, IsNext, Waits, Explicit, Other, Free;
    OvertakerFree(h, c, p, i, z);
    Begun(h, c, p);
    NothingAtStart(h, c, done, y);
    BasesAt(h, c);
    BaseAt(h, c, i + 1);
    if FirstNext(t, done, y, j) {
      assert IsNext(t[i + 1], done, z) && j > 0;
      if j <= i + 1 { BaseAt(h, c, j); }
    }
  }

  /** Something picked from an earlier list overtakes. */
  lemma Passed(h: Hierarchy, c: Class, p: nat, k: nat, i: nat, z: Class)
    requires Ordered(h) && c in h.mro && 0 < p < |h.Mro(c)| && k < |h.Bases(c)| && i < k + 1
    requires FirstNext(Standard(h, c), h.Mro(c)[..p], h.Mro(c)[p], k + 1) && Free(Standard(h, c), h.Mro(c)[..p], h.Mro(c)[p])
    requires |Split(h, c)| > i && IsNext(Split(h, c)[i], h.Mro(c)[..p], z) && Free(Split(h, c), h.Mro(c)[..p], z)
    ensures exists i': nat, z' :: Overtakes(h, c, p, i', z')
  {
    hide Standard, Split, Ordered, IsNext, Waits, Explicit, Other, Free;
    var done, y := h.Mro(c)[..p], h.Mro(c)[p];
    Begun(h, c, p);
    NothingAtStart(h, c, done, z);
    BaseAt(h, c, i);
    assert !Free(Standard(h, c), done, z);
    forall l | 0 <= l <= i - 1 ensures !IsNext(h.Mro(h.Bases(c)[l]), done, y) { BaseAt(h, c, l + 1); }
    hide FirstNext;
    PassedFree(h, c, done, z);
    assert Overtakes(h, c, p, i - 1, z);
  }

  lemma PassedFree(h: Hierarchy, c: Class, done: seq<Class>, z: Class)
    requires Free(Split(h, c), done, z) && !Free(Standard(h, c), done, z)
    ensures z in Other(h, c) && !Waits(Other(h, c), done, z) && exists e :: e in Explicit(h, c) && e !in done
    ensures forall k :: 0 <= k < |h.Bases(c)| ==> !Waits(h.Mro(h.Bases(c)[k]), done, z)
  {
    hide Standard, Split, Waits, Explicit, Other, Free;
    FreeSplit(h, c, done, z);
    FreeParts(h, c, done, z);
  }

  lemma NothingAtStart(h: Hierarchy, c: Class, done: seq<Class>, x: Class)
    requires c in done
    ensures !IsNext(Split(h, c)[0], done, x)
  {
    NeverWaits(c, done, x);
  }

  lemma OvertakerFree(h: Hierarchy, c: Class, p: nat, i: nat, z: Class)
    requires Ordered(h) && c in h.mro && Overtakes(h, c, p, i, z)
    ensures Free(Split(h, c), h.Mro(c)[..p], z)
  {
    FreeParts(h, c, h.Mro(c)[..p], z);
    BasesOnce(h, c);
    hide Ordered, IsNext, Free, Boundary, Waits, NoRepeats, Split, Standard, Keeps;
    NotBefore(h.Bases(c), Boundary(h, h.Bases(c)), h.Mro(c)[..p], z);
  }

  lemma NotBefore(s: seq<Class>, b: nat, done: seq<Class>, x: Class)
    requires NoRepeats(s) && b <= |s| && x in s[b..]
    ensures !Waits(s[..b], done, x)
  {
    var q :| 0 <= q < |s[b..]| && s[b..][q] == x;
    assert s[q + b] == x;
  }

  /** The split lists have the class's own order for their C3 order exactly when no ordinary base
      overtakes an abstract one. */
  lemma SplitExact(h: Hierarchy, c: Class)
    requires Ordered(h) && c in h.mro
    ensures IsC3(Split(h, c), h.Mro(c)) <==> !Overtaken(h, c)
  {
    var m := h.Mro(c);
    OrderStarts(h, c);
    forall p | 0 < p < |m| ensures Picked(Split(h, c), m[..p], m[p]) <==> !exists i, z :: Overtakes(h, c, p, i, z) {
      PickedSplit(h, c, p);
    }
    FirstOfSplit(h, c);
    forall x | Occurs(x, Split(h, c)) ensures x in m { SplitOccurs(h, c, x); }
    hide Split, Overtakes, Ordered, Picked, Occurs;
    assert m[..0] == [];
  }

  lemma FirstOfSplit(h: Hierarchy, c: Class)
    requires Ordered(h) && c in h.mro
    ensures Picked(Split(h, c), [], c)
  {
    OrderStarts(h, c);
    assert h.Mro(c)[..0] == [] && Picked(Standard(h, c), [], c);
    FreeSplit(h, c, [], c);
    BasesAt(h, c);
    NextOfHead([c], [], c);
    hide Standard, Split;
    assert FirstNext(Split(h, c), [], c, 0);
  }

  lemma SplitOccurs(h: Hierarchy, c: Class, x: Class)
    requires Ordered(h) && c in h.mro && Occurs(x, Split(h, c))
    ensures x in h.Mro(c)
  {
    hide Ordered, Boundary, Split;
    var bases, lists := h.Bases(c), Split(h, c);
    BasesAt(h, c);
    OwnOrder(h, c);
    var s :| s in lists && x in s;
    var k :| 0 <= k < |lists| && lists[k] == s;
    if 0 < k <= |bases| {
      BaseAt(h, c, k);
      assert bases[k - 1] in bases;
      BaseOlder(h, c, bases[k - 1]);
    } else if k > 0 {
      assert x in bases;
      BaseOlder(h, c, x);
    }
  }

  // ----- the linearization without abstract classes -----

  /** The linearization is the host's order. */
  ghost predicate Plain(h: Hierarchy, rel: Relation, c: Class)
    requires h.Valid()
  {
    Linearize(h, rel, c, []) == Some(h.Mro(c))
  }

  lemma MergedPlain(h: Hierarchy, rel: Relation, c: Class, lists: seq<seq<Class>>)
    requires Ordered(h) && c in h.mro && forall k :: 0 <= k < |h.Bases(c)| ==> Plain(h, rel, h.Bases(c)[k])
    ensures Merged(h, rel, c, [], lists) <==> lists == Split(h, c)
  {
    var n := |h.Bases(c)|;
    assert h.Valid();
    hide Ordered, Linearize, Boundary, Plain;
    PlainLists(h, rel, h.Bases(c), if |lists| > n then lists[1..n + 1] else []);
    hide Linearized;
    MergedNothing(h, rel, c, lists);
    hide Merged, Split, Explicit, Other, Orders;
    SplitParts(h, c, lists);
  }

  /** What is merged when there is nothing to insert. */
  lemma MergedNothing(h: Hierarchy, rel: Relation, c: Class, lists: seq<seq<Class>>)
    requires h.Valid()
    ensures var n := |h.Bases(c)|;
      Merged(h, rel, c, [], lists) <==>
      |lists| == n + 4 && lists[0] == [c] && Linearized(h, rel, h.Bases(c), [], lists[1..n + 1])
      && lists[n + 1..] == [Explicit(h, c), [], Other(h, c)]
  {
    NothingIntroduced(h, rel, c);
    assert Explicit(h, c) + [] + Other(h, c) == h.Bases(c);
    hide Linearized, Introduced, Explicit, Other;
  }

  lemma PlainLists(h: Hierarchy, rel: Relation, classes: seq<Class>, lists: seq<seq<Class>>)
    requires h.Valid() && forall k :: 0 <= k < |classes| ==> Plain(h, rel, classes[k])
    ensures Linearized(h, rel, classes, [], lists) <==> lists == Orders(h, classes)
  {
    hide Linearize;
    if Linearized(h, rel, classes, [], lists) {
      forall k | 0 <= k < |classes| ensures lists[k] == Orders(h, classes)[k] { assert Plain(h, rel, classes[k]); }
    }
    if lists == Orders(h, classes) {
      forall k | 0 <= k < |classes| ensures Linearize(h, rel, classes[k], []) == Some(lists[k]) { assert Plain(h, rel, classes[k]); }
    }
  }

  lemma SplitParts(h: Hierarchy, c: Class, lists: seq<seq<Class>>)
    ensures var n := |h.Bases(c)|;
      lists == Split(h, c) <==>
      |lists| == n + 4 && lists[0] == [c] && lists[1..n + 1] == Orders(h, h.Bases(c))
      && lists[n + 1..] == [Explicit(h, c), [], Other(h, c)]
  {
    var n, orders, ends := |h.Bases(c)|, Orders(h, h.Bases(c)), [Explicit(h, c), [], Other(h, c)];
    hide Explicit, Other;
    var whole := [[c]] + orders + ends;
    if lists == whole {
      assert lists[1..n + 1] == orders && lists[n + 1..] == ends;
    }
    if |lists| == n + 4 { assert lists == [lists[0]] + lists[1..n + 1] + lists[n + 1..]; }
  }

  lemma NothingIntroduced(h: Hierarchy, rel: Relation, c: Class)
    ensures Introduced(h, rel, c, [], true) == [] && Introduced(h, rel, c, [], false) == []
  {
  }

  /** If it is for the bases, it is for the class exactly when no ordinary base of it overtakes an
      abstract one and none of its classes counts as false. */
  lemma PlainStep(h: Hierarchy, rel: Relation, c: Class)
    requires Ordered(h) && c in h.mro && forall k :: 0 <= k < |h.Bases(c)| ==> Plain(h, rel, h.Bases(c)[k])
    ensures Plain(h, rel, c) <==> !Overtaken(h, c) && !AnyFalsy(h.Mro(c), h.falsy)
  {
    forall lists ensures Merged(h, rel, c, [], lists) <==> lists == Split(h, c) { MergedPlain(h, rel, c, lists); }
    hide Linearize, Ordered, Merged, Split, IsC3, Overtaken;
    LinearizeIsC3(h, rel, c, [], h.Mro(c));
    SplitExact(h, c);
    assert Merged(h, rel, c, [], Split(h, c));
  }

  /** Otherwise it is whatever the split lists merge to. */
  lemma PlainMerges(h: Hierarchy, rel: Relation, c: Class, order: seq<Class>)
    requires Ordered(h) && c in h.mro && forall k :: 0 <= k < |h.Bases(c)| ==> Plain(h, rel, h.Bases(c)[k])
    requires Merge(Split(h, c)) == Some(order) && h.falsy == {}
    ensures Linearize(h, rel, c, []) == Some(order)
    ensures Overtaken(h, c) <==> order != h.Mro(c)
  {
    assert h.Valid();
    hide Ordered, Plain, Linearize, Merge, Split, IsC3, Merged, Overtaken;
    assert !AnyFalsy(order, h.falsy);
    MergedPlain(h, rel, c, Split(h, c));
    MergeIsC3(Split(h, c), order);
    MergeIsC3(Split(h, c), h.Mro(c));
    LinearizeIsC3(h, rel, c, [], order);
    SplitExact(h, c);
  }

  /** Everything in the order of a class is as the host has it. */
  ghost predicate Undisturbed(h: Hierarchy, c: Class) {
    forall d :: d in h.Mro(c) ==> !Overtaken(h, d) && d !in h.falsy
  }

  lemma {:induction false} UndisturbedPlain(h: Hierarchy, rel: Relation, c: Class)
    requires Ordered(h) && c in h.mro && Undisturbed(h, c)
    ensures Plain(h, rel, c)
    decreases c
  {
    hide Linearize, Overtaken, Plain, IsC3;
    forall k | 0 <= k < |h.Bases(c)| ensures Plain(h, rel, h.Bases(c)[k]) {
      var d := h.Bases(c)[k];
      assert d in h.Bases(c);
      BaseOlder(h, c, d);
      UndisturbedPlain(h, rel, d);
    }
    OwnOrder(h, c);
    PlainStep(h, rel, c);
  }

  /** Without abstract classes to insert, every class's linearization is the host's order exactly when
      no class has an abstract base that an ordinary one overtakes, and none counts as false. */
  lemma PlainExact(h: Hierarchy, rel: Relation)
    requires Ordered(h)
    ensures (forall c :: c in h.mro ==> Plain(h, rel, c)) <==> forall c :: c in h.mro ==> !Overtaken(h, c) && c !in h.falsy
  {
    hide Plain, Overtaken, IsC3;
    if forall c :: c in h.mro ==> Plain(h, rel, c) {
      forall c | c in h.mro ensures !Overtaken(h, c) && c !in h.falsy {
        PlainStep(h, rel, c);
        OwnOrder(h, c);
      }
    }
    if forall c :: c in h.mro ==> !Overtaken(h, c) && c !in h.falsy {
      forall c | c in h.mro ensures Plain(h, rel, c) {
        forall d | d in h.Mro(c) ensures d in h.mro { OrderBelow(h, c, d); }
        UndisturbedPlain(h, rel, c);
      }
    }
  }

  /** Only an ordinary base that an abstract base is derived from can overtake. */
  lemma OvertakerInherited(h: Hierarchy, c: Class, p: nat, i: nat, z: Class)
    requires Ordered(h) && c in h.mro && Overtakes(h, c, p, i, z)
    ensures h.Bases(c)[i] in Explicit(h, c) && z in Other(h, c) && z in h.Mro(h.Bases(c)[i])
  {
    var m, bases, b := h.Mro(c), h.Bases(c), h.Bases(c)[i];
    var done := m[..p];
    hide Ordered, Boundary, Waits;
    BasesOnce(h, c);
    assert b in bases;
    BaseOlder(h, c, b);
    OrderStarts(h, b);
    if b !in done {
      NextOfHead(h.Mro(b), done, z);
      NotUndone(h, c, p, i);
    }
    var e :| e in Explicit(h, c) && e !in done;
    if i >= |Explicit(h, c)| { DoneBefore(h, c, p, i, e); }
    assert Explicit(h, c)[i] == b;
  }

  /** A base whose order has not begun does not overtake. */
  lemma NotUndone(h: Hierarchy, c: Class, p: nat, i: nat)
    requires Ordered(h) && c in h.mro && 0 < p < |h.Mro(c)| && i < |h.Bases(c)|
    requires forall k :: 0 <= k <= i ==> !IsNext(h.Mro(h.Bases(c)[k]), h.Mro(c)[..p], h.Mro(c)[p])
    ensures h.Bases(c)[i] in h.Mro(c)[..p]
  {
    hide Ordered, IsNext, Free, Standard;
    var m, bases := h.Mro(c), h.Bases(c);
    var done := m[..p];
    var k := TakenFromBase(h, c, p);
    BasesOnce(h, c);
    if bases[i] !in done {
      assert i < k && Before(m, bases[i], bases[k]);
      var q, r :| 0 <= q < r < |m| && m[q] == bases[i] && m[r] == bases[k];
      PrefixMember(m, p, q);
      PrefixMember(m, p, r);
      assert bases[k] in bases;
      BaseOlder(h, c, bases[k]);
      OrderStarts(h, bases[k]);
      NextOfHead(h.Mro(bases[k]), done, m[p]);
    }
  }

  lemma TakenFromBase(h: Hierarchy, c: Class, p: nat) returns (k: nat)
    requires Ordered(h) && c in h.mro && 0 < p < |h.Mro(c)|
    ensures k < |h.Bases(c)| && IsNext(h.Mro(h.Bases(c)[k]), h.Mro(c)[..p], h.Mro(c)[p])
  {
    k := TakenFrom(h, c, p);
    BaseAt(h, c, k + 1);
    hide Standard, Ordered;
  }

  /** The bases before one that is done are done. */
  lemma DoneBefore(h: Hierarchy, c: Class, p: nat, i: nat, e: Class)
    requires Ordered(h) && c in h.mro && p < |h.Mro(c)| && |Explicit(h, c)| <= i < |h.Bases(c)|
    requires h.Bases(c)[i] in h.Mro(c)[..p] && e in Explicit(h, c)
    ensures e in h.Mro(c)[..p]
  {
    hide Ordered, Boundary;
    var m, bases := h.Mro(c), h.Bases(c);
    BasesOnce(h, c);
    var j :| 0 <= j < |Explicit(h, c)| && Explicit(h, c)[j] == e;
    assert bases[j] == e && Before(m, bases[j], bases[i]);
    var q, r :| 0 <= q < r < |m| && m[q] == e && m[r] == bases[i];
    PrefixMember(m, p, q);
    PrefixMember(m, p, r);
  }

  lemma PrefixMember(m: seq<Class>, p: nat, q: nat)
    requires NoRepeats(m) && p <= |m| && q < |m|
    ensures m[q] in m[..p] <==> q < p
  {
    if q < p { assert m[..p][q] == m[q]; }
    if m[q] in m[..p] {
      var u :| 0 <= u < p && m[..p][u] == m[q];
      assert m[u] == m[q];
    }
  }

  // ----- the answer -----

  /** Without abstract classes in the registry, a class in whose order nothing is overtaken gets the
      implementation of the first registered class of that order. */
  lemma PlainAnswer(h: Hierarchy, rel: Relation, reg: Registry, c: Class)
    requires Ordered(h) && reg.Valid() && rel.Fits(h) && c in h.mro && Undisturbed(h, c)
    requires forall t :: t in reg.impls ==> t !in h.abcs
    ensures forall p: nat :: FirstRegistered(reg, h.Mro(c), p) ==> Answer(h, rel, reg, c) == Ok(Some(reg.impls[h.Mro(c)[p]]))
    ensures (forall t :: t in h.Mro(c) ==> t !in reg.impls) ==> Answer(h, rel, reg, c) == Ok(None)
  {
    assert h.Valid();
    hide Ordered, Answer, ComposeMro, IsChoice, Undisturbed, Relation.Fits;
    OrderStarts(h, c);
    PlainCompose(h, rel, reg, c);
    AnswerExact(h, rel, reg, c);
    if c in reg.impls {
      RegisteredFirst(reg, h.Mro(c));
    } else {
      OwnChoice(h, rel, c, reg, Answer(h, rel, reg, c));
    }
  }

  lemma RegisteredFirst(reg: Registry, mro: seq<Class>)
    requires mro != [] && mro[0] in reg.impls
    ensures forall p: nat :: FirstRegistered(reg, mro, p) ==> p == 0
  {
  }

  /** Within the class's own order no choice is ambiguous. */
  lemma OwnChoice(h: Hierarchy, rel: Relation, c: Class, reg: Registry, r: Result<Option<Impl>, DispatchError>)
    requires IsChoice(h, rel, c, reg, h.Mro(c), r)
    ensures forall p: nat :: FirstRegistered(reg, h.Mro(c), p) ==> r == Ok(Some(reg.impls[h.Mro(c)[p]]))
    ensures (forall t :: t in h.Mro(c) ==> t !in reg.impls) ==> r == Ok(None)
  {
    var mro := h.Mro(c);
    forall p: nat | FirstRegistered(reg, mro, p) ensures r == Ok(Some(reg.impls[mro[p]])) {
      assert mro[p] in h.Mro(c);
      assert r == ChoiceAt(h, rel, c, reg, mro, p);
    }
  }

  lemma PlainCompose(h: Hierarchy, rel: Relation, reg: Registry, c: Class)
    requires Ordered(h) && reg.Valid() && rel.Fits(h) && c in h.mro && Undisturbed(h, c)
    requires forall t :: t in reg.impls ==> t !in h.abcs
    ensures ComposeMro(h, rel, c, reg.keys) == Some(h.Mro(c))
  {
    hide Linearize, Ordered;
    forall k | 0 <= k < |reg.keys| ensures reg.keys[k] !in h.abcs { assert reg.keys[k] in reg.keys; }
    NoneRelated(h, rel, c, reg.keys);
    UndisturbedPlain(h, rel, c);
    assert Outermost(h, []) == [] && OrderTypes(h, rel, c, [], [], []) == [];
  }
}
