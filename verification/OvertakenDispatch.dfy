/** A class whose dispatch does not follow its resolution order: `class C(K, I, J)` where K and I are
    abstract, J is not, and K is derived from J. */
module OvertakenDispatch {
  import opened Results
  import opened Sequences
  import opened C3Merge
  import opened Dispatch
  import opened Linearization
  import opened PlainOrder

  // ----- merging given lists -----

  /** One round: the candidate is the head of list k. */
  lemma Round(lists: seq<seq<Class>>, k: nat, out: seq<Class>)
    requires NonEmpty(lists) && k < |lists| && !InSomeTail(lists[k][0], lists)
    requires forall i :: 0 <= i < k ==> InSomeTail(lists[i][0], lists)
    requires Merge(DropHead(lists, lists[k][0])) == Some(out)
    ensures Merge(lists) == Some([lists[k][0]] + out)
  {
    var c := lists[k][0];
    PurgeNothing(lists);
    FirstGoodHeadPlace(lists, 0);
    hide InSomeTail;
    assert FirstGoodHead(lists, 0).Some?;
    var j :| FirstHeadAt(lists, 0, FirstGoodHead(lists, 0).value, j);
    assert j == k;
    TotalDrops(lists, c);
    hide FirstGoodHead, Purge, DropHead;
  }

  lemma {:induction false} PurgeNothing(lists: seq<seq<Class>>)
    requires NonEmpty(lists)
    ensures Purge(lists) == lists
  {
    if lists != [] {
      PurgeNothing(lists[1..]);
      assert lists == [lists[0]] + lists[1..];
    }
  }

  /** Empty lists may be left out. */
  lemma MergePurged(lists: seq<seq<Class>>)
    ensures Merge(lists) == Merge(Purge(lists))
  {
    PurgeNothing(Purge(lists));
  }

  lemma MergeSkip(rest: seq<seq<Class>>)
    ensures Merge([[]] + rest) == Merge(rest)
  {
    assert ([[]] + rest)[1..] == rest;
    hide Merge;
    MergePurged([[]] + rest);
    MergePurged(rest);
  }

  /** Only one class is left. */
  lemma MergeLast(lists: seq<seq<Class>>, c: Class)
    requires lists != [] && lists[0] == [c] && forall k :: 0 <= k < |lists| ==> lists[k] == [c] || lists[k] == []
    ensures Merge(lists) == Some([c])
  {
    var live := Purge(lists);
    assert live[0] == [c];
    forall k | 0 <= k < |live| ensures live[k] == [c] { assert live[k] in live; }
    MergePurged(lists);
    hide Merge, Purge;
    MergeEqual(live, c);
  }

  lemma MergeEqual(live: seq<seq<Class>>, c: Class)
    requires live != [] && forall k :: 0 <= k < |live| ==> live[k] == [c]
    ensures Merge(live) == Some([c])
  {
    PurgeAll(DropHead(live, c));
    hide Merge;
    Round(live, 0, []);
    assert [c] + [] == [c];
  }

  lemma {:induction false} PurgeAll(lists: seq<seq<Class>>)
    requires forall k :: 0 <= k < |lists| ==> lists[k] == []
    ensures Purge(lists) == [] && Merge(lists) == Some([])
  {
    if lists != [] { PurgeAll(lists[1..]); }
  }

  // ----- the classes -----

  const OBJECT: Class := 0
  const J: Class := 1
  const I: Class := 2
  const K: Class := 3
  const C: Class := 4

  function Classes(): Hierarchy {
    Hierarchy(
      map[OBJECT := [], J := [OBJECT], I := [OBJECT], K := [J], C := [K, I, J]],
      map[OBJECT := [OBJECT], J := [J, OBJECT], I := [I, OBJECT], K := [K, J, OBJECT], C := [C, K, I, J, OBJECT]],
      {I, K, C}, {})
  }

  lemma ObjectLast()
    ensures Merge([[0], [0], [0], []]) == Some([0])
  {
    hide Merge;
    MergeLast([[0], [0], [0], []], 0);
  }

  lemma HostMerge()
    ensures Merge([[4], [3, 1, 0], [2, 0], [1, 0], [3, 2, 1]]) == Some([4, 3, 2, 1, 0])
  {
    HostMerge3();
    hide Merge;
    var lists, rest := [[4], [3, 1, 0], [2, 0], [1, 0], [3, 2, 1]], [[3, 1, 0], [2, 0], [1, 0], [3, 2, 1]];
    assert DropHead(lists, 4) == [[]] + rest;
    MergeSkip(rest);
    Round(lists, 0, [3, 2, 1, 0]);
    assert [4] + [3, 2, 1, 0] == [4, 3, 2, 1, 0];
  }

  lemma HostMerge3()
    ensures Merge([[3, 1, 0], [2, 0], [1, 0], [3, 2, 1]]) == Some([3, 2, 1, 0])
  {
    HostMerge2();
    hide Merge;
    var lists := [[3, 1, 0], [2, 0], [1, 0], [3, 2, 1]];
    assert DropHead(lists, 3) == [[1, 0], [2, 0], [1, 0], [2, 1]];
    Round(lists, 0, [2, 1, 0]);
    assert [3] + [2, 1, 0] == [3, 2, 1, 0];
  }

  lemma HostMerge2()
    ensures Merge([[1, 0], [2, 0], [1, 0], [2, 1]]) == Some([2, 1, 0])
  {
    HostMerge1();
    hide Merge;
    var lists, rest := [[1, 0], [2, 0], [1, 0], [2, 1]], [[1, 0], [0], [1, 0], [1]];
    assert DropHead(lists, 2) == rest;
    assert lists[3][1..] == [1];
    SecondRound(lists, 1, 2, [1, 0]);
    assert [2] + [1, 0] == [2, 1, 0];
  }

  lemma HostMerge1()
    ensures Merge([[1, 0], [0], [1, 0], [1]]) == Some([1, 0])
  {
    var lists, rest := [[1, 0], [0], [1, 0], [1]], [[0], [0], [0], []];
    assert DropHead(lists, 1) == rest;
    assert !InSomeTail(1, lists);
    hide Merge, DropHead, InSomeTail;
    ObjectLast();
    Round(lists, 0, [0]);
    assert [1] + [0] == [1, 0];
  }

  lemma DispatchMerge()
    ensures Merge([[4], [3, 1, 0], [2, 0], [1, 0], [3, 2], [], [1]]) == Some([4, 3, 1, 2, 0])
  {
    DispatchMerge3();
    hide Merge;
    var lists := [[4], [3, 1, 0], [2, 0], [1, 0], [3, 2], [1]];
    var rest := [[3, 1, 0], [2, 0], [1, 0], [3, 2], [1]];
    assert DropHead(lists, 4) == [[]] + rest;
    MergeSkip(rest);
    Round(lists, 0, [3, 1, 2, 0]);
    assert [4] + [3, 1, 2, 0] == [4, 3, 1, 2, 0];
    MergeWithout([[4], [3, 1, 0], [2, 0], [1, 0], [3, 2]], [[1]]);
    assert [[4], [3, 1, 0], [2, 0], [1, 0], [3, 2]] + [[]] + [[1]] == [[4], [3, 1, 0], [2, 0], [1, 0], [3, 2], [], [1]];
    assert [[4], [3, 1, 0], [2, 0], [1, 0], [3, 2]] + [[1]] == lists;
  }

  lemma {:induction false} PurgeWithout(a: seq<seq<Class>>, b: seq<seq<Class>>)
    ensures Purge(a + [[]] + b) == Purge(a + b)
  {
    if a == [] {
      assert a + [[]] + b == [[]] + b && ([[]] + b)[1..] == b && a + b == b;
    } else {
      PurgeWithout(a[1..], b);
      assert (a + [[]] + b)[0] == a[0] && (a + [[]] + b)[1..] == a[1..] + [[]] + b;
      assert (a + b)[0] == a[0] && (a + b)[1..] == a[1..] + b;
    }
  }

  lemma MergeWithout(a: seq<seq<Class>>, b: seq<seq<Class>>)
    ensures Merge(a + [[]] + b) == Merge(a + b)
  {
    hide Merge;
    PurgeWithout(a, b);
    MergePurged(a + [[]] + b);
    MergePurged(a + b);
  }

  lemma DispatchMerge3()
    ensures Merge([[3, 1, 0], [2, 0], [1, 0], [3, 2], [1]]) == Some([3, 1, 2, 0])
  {
    DispatchMerge1();
    hide Merge;
    var lists := [[3, 1, 0], [2, 0], [1, 0], [3, 2], [1]];
    assert DropHead(lists, 3) == [[1, 0], [2, 0], [1, 0], [2], [1]];
    Round(lists, 0, [1, 2, 0]);
    assert [3] + [1, 2, 0] == [3, 1, 2, 0];
  }

  lemma DispatchMerge1()
    ensures Merge([[1, 0], [2, 0], [1, 0], [2], [1]]) == Some([1, 2, 0])
  {
    DispatchMerge2();
    hide Merge;
    var lists, rest := [[1, 0], [2, 0], [1, 0], [2], [1]], [[0], [2, 0], [0], [2]];
    assert DropHead(lists, 1) == rest + [[]] + [];
    MergeWithout(rest, []);
    assert rest + [] == rest;
    Round(lists, 0, [2, 0]);
    assert [1] + [2, 0] == [1, 2, 0];
  }

  function TwoLeft(): seq<seq<Class>> {
    [[0], [2, 0], [0], [2]]
  }

  lemma TwoLeftFacts()
    ensures var lists := TwoLeft();
      && NonEmpty(lists) && |lists| > 1 && lists[0][0] == 0 && lists[1][0] == 2
      && InSomeTail(0, lists) && !InSomeTail(2, lists) && DropHead(lists, 2) == [[0], [0], [0], []]
  {
    var lists, rest := TwoLeft(), [[0], [0], [0], []];
    assert lists[1][1..] == [0];
    assert InSomeTail(0, lists) && !InSomeTail(2, lists);
    hide InSomeTail;
    assert DropHead(lists, 2) == rest;
  }

  lemma DispatchMerge2()
    ensures Merge(TwoLeft()) == Some([2, 0])
  {
    hide Merge, DropHead, InSomeTail, TwoLeft, NonEmpty;
    TwoLeftFacts();
    ObjectLast();
    SecondRound(TwoLeft(), 0, 2, [0]);
    assert [2] + [0] == [2, 0];
  }

  /** A round in which the first head waits. */
  lemma SecondRound(lists: seq<seq<Class>>, first: Class, c: Class, out: seq<Class>)
    requires NonEmpty(lists) && |lists| > 1 && lists[0][0] == first && lists[1][0] == c
    requires InSomeTail(first, lists) && !InSomeTail(c, lists) && Merge(DropHead(lists, c)) == Some(out)
    ensures Merge(lists) == Some([c] + out)
  {
    hide Merge, DropHead, InSomeTail;
    Round(lists, 1, out);
  }

  // ----- the dispatch -----

  /** A class with one base: its order is the base's after itself. */
  lemma ChainC3(c: Class, order: seq<Class>, bases: seq<Class>)
    requires c !in order && NoRepeats(order) && bases == (if order == [] then [] else [order[0]])
    ensures order != [] ==> IsC3([[c], order, bases], [c] + order)
    ensures order == [] ==> IsC3([[c], []], [c])
  {
    if order == [] {
      NextAtStart([c], c);
      NextAtStart([], c);
      assert FirstNext([[c], []], [], c, 0);
      assert [c][..0] == [];
    } else {
      var lists, m := [[c], order, bases], [c] + order;
      forall p | 0 <= p < |m| ensures Picked(lists, m[..p], m[p]) { ChainPicked(c, order, p); }
      hide Picked;
    }
  }

  lemma ChainPicked(c: Class, order: seq<Class>, p: nat)
    requires c !in order && NoRepeats(order) && order != [] && p <= |order|
    ensures Picked([[c], order, [order[0]]], ([c] + order)[..p], ([c] + order)[p])
  {
    var lists, m := [[c], order, [order[0]]], [c] + order;
    var done, x := m[..p], m[p];
    NeverWaits(c, done, x);
    NeverWaits(order[0], done, x);
    assert forall q :: 0 <= q < p ==> done[q] == m[q];
    assert x !in done;
    forall i, j | 0 <= i < j < |order| && order[j] == x ensures order[i] in done {
      assert p > 0 && order[p - 1] == x;
      assert done[i + 1] == order[i];
    }
    hide Waits;
    if p == 0 {
      NextOfHead([c], done, c);
      assert FirstNext(lists, done, x, 0);
    } else {
      assert done[0] == c;
      assert order[p - 1] == x && forall j :: 0 <= j < p - 1 ==> order[j] in done by {
        forall j | 0 <= j < p - 1 ensures order[j] in done { assert done[j + 1] == order[j]; }
      }
      assert IsNext(order, done, x);
      hide IsNext;
      assert forall y :: !IsNext(lists[0], done, y) by { forall y ensures !IsNext([c], done, y) { NeverWaits(c, done, y); } }
      assert FirstNext(lists, done, x, 1);
    }
  }

  lemma ChainOrdered(h: Hierarchy, c: Class)
    requires |h.Bases(c)| <= 1 && h.Mro(c) != [] && h.Mro(c)[0] == c && c !in h.Mro(c)[1..] && NoRepeats(h.Mro(c)[1..])
    requires if h.Bases(c) == [] then h.Mro(c) == [c] else h.Mro(h.Bases(c)[0]) == h.Mro(c)[1..] != [] && h.Bases(c)[0] == h.Mro(c)[1]
    ensures IsC3(Standard(h, c), h.Mro(c))
  {
    var order := h.Mro(c)[1..];
    ChainC3(c, order, if order == [] then [] else [order[0]]);
    assert h.Mro(c) == [c] + order;
    hide IsC3;
    if h.Bases(c) == [] {
      assert Orders(h, []) == [] && Standard(h, c) == [[c], []];
    } else {
      assert h.Bases(c) == [order[0]];
      assert Orders(h, h.Bases(c)) == [order];
      assert Standard(h, c) == [[c], order, [order[0]]];
    }
  }

  lemma TheClasses()
    ensures var h := Classes();
      && h.mro.Keys == {0, 1, 2, 3, 4} && h.abcs == {2, 3, 4} && h.falsy == {} && h.Valid()
      && h.Bases(0) == [] && h.Bases(1) == [0] && h.Bases(2) == [0] && h.Bases(3) == [1] && h.Bases(4) == [3, 2, 1]
      && h.Mro(0) == [0] && h.Mro(1) == [1, 0] && h.Mro(2) == [2, 0] && h.Mro(3) == [3, 1, 0] && h.Mro(4) == [4, 3, 2, 1, 0]
  {
  }

  lemma ClassesOrdered()
    ensures Ordered(Classes())
  {
    var h := Classes();
    TheClasses();
    SingleBases();
    StandardOfC();
    hide Classes, IsC3, Merge, Standard;
    HostMerge();
    MergeIsC3(Standard(h, C), [4, 3, 2, 1, 0]);
  }

  lemma SingleBases()
    ensures var h := Classes(); forall c :: 0 <= c <= 3 ==> IsC3(Standard(h, c), h.Mro(c))
  {
    var h := Classes();
    TheClasses();
    hide Classes, IsC3, Standard;
    assert [1, 0][1..] == [0] && [2, 0][1..] == [0] && [3, 1, 0][1..] == [1, 0] && [0][1..] == [];
    ChainOrdered(h, OBJECT);
    ChainOrdered(h, J);
    ChainOrdered(h, I);
    ChainOrdered(h, K);
  }

  lemma StandardOfC()
    ensures Standard(Classes(), C) == [[4], [3, 1, 0], [2, 0], [1, 0], [3, 2, 1]]
  {
    var h := Classes();
    TheClasses();
    hide Classes;
    assert Orders(h, [3, 2, 1]) == [[3, 1, 0], [2, 0], [1, 0]];
  }

  lemma OneKindOfBase(h: Hierarchy, c: Class)
    requires Explicit(h, c) == [] || Other(h, c) == []
    ensures !Overtaken(h, c)
  {
  }

  lemma BasesPlain(rel: Relation, c: Class)
    requires c <= 3
    ensures Ordered(Classes()) && Plain(Classes(), rel, c)
  {
    ClassesOrdered();
    TheClasses();
    var h := Classes();
    forall d | d in h.Mro(c) ensures d <= 3 { BelowItself(c, d); }
    forall d: Class | d <= 3 ensures !Overtaken(h, d) { SinglesKept(d); }
    hide *;
    FewUndisturbed(h, c);
    UndisturbedPlain(h, rel, c);
  }

  lemma BelowItself(c: Class, d: Class)
    requires c <= 3 && d in Classes().Mro(c)
    ensures d <= 3
  {
  }

  lemma FewUndisturbed(h: Hierarchy, c: Class)
    requires h.falsy == {} && (forall d :: d in h.Mro(c) ==> d <= 3) && forall d: Class :: d <= 3 ==> !Overtaken(h, d)
    ensures Undisturbed(h, c)
  {
    hide Overtaken;
  }

  lemma SinglesKept(d: Class)
    requires d <= 3
    ensures !Overtaken(Classes(), d)
  {
    TheClasses();
    var h := Classes();
    hide Classes;
    assert [0][..0] == [] && [1][..0] == [];
    assert Boundary(h, []) == 0;
    OneKindOfBase(h, d);
  }

  /** Dispatch composes C, K, J, I, object where the class's own order is C, K, I, J, object. */
  lemma ComposedDiffers(rel: Relation)
    ensures Ordered(Classes()) && Linearize(Classes(), rel, C, []) == Some([C, K, J, I, OBJECT])
    ensures Overtaken(Classes(), C)
  {
    hide Classes, Ordered, Plain, Linearize, Merge, Split, Overtaken, IsC3, Hierarchy.Valid;
    var h, order := Classes(), [4, 3, 1, 2, 0];
    TheClasses();
    BasesPlain(rel, J);
    BasesPlain(rel, I);
    BasesPlain(rel, K);
    SplitOfC();
    DispatchMerge();
    assert order[2] == 1 && [4, 3, 2, 1, 0][2] == 2;
    ThreeBases(h, rel, [3, 2, 1]);
    PlainMerges(h, rel, C, order);
  }

  lemma ThreeBases(h: Hierarchy, rel: Relation, bases: seq<Class>)
    requires h.Valid() && bases == [3, 2, 1] && Plain(h, rel, 3) && Plain(h, rel, 2) && Plain(h, rel, 1)
    ensures forall k :: 0 <= k < |bases| ==> Plain(h, rel, bases[k])
  {
    hide Plain;
  }

  lemma SplitOfC()
    ensures Split(Classes(), C) == [[4], [3, 1, 0], [2, 0], [1, 0], [3, 2], [], [1]]
  {
    var h, bases := Classes(), [3, 2, 1];
    TheClasses();
    hide Classes;
    assert bases[..2] == [3, 2] && bases[2..] == [1];
    assert Boundary(h, bases) == 2;
    assert Orders(h, bases) == [[3, 1, 0], [2, 0], [1, 0]];
  }

  /** With implementations for object, J and I, C is given that of J, although I comes first in its
      own order, which is the C3 order of its bases. */
  lemma DispatchDiffers(rel: Relation, reg: Registry)
    requires reg.Valid() && reg.impls == map[OBJECT := 10, J := 11, I := 12]
    ensures Ordered(Classes()) && Classes().Mro(C) == [C, K, I, J, OBJECT]
    ensures Answer(Classes(), rel, reg, C) == Ok(Some(11))
  {
    var h, mro := Classes(), [C, K, J, I, OBJECT];
    TheClasses();
    ComposedDiffers(rel);
    hide Classes, Ordered, Linearize, Answer, IsChoice, Overtaken;
    NothingRelated(h, rel, reg);
    hide ComposeMro;
    AnswerExact(h, rel, reg, C);
    JChosen(h, rel, reg, mro, Answer(h, rel, reg, C));
  }

  lemma NothingRelated(h: Hierarchy, rel: Relation, reg: Registry)
    requires h.Valid() && forall t :: t in reg.keys ==> t in h.Mro(C)
    ensures ComposeMro(h, rel, C, reg.keys) == Linearize(h, rel, C, [])
  {
    hide Linearize;
    FilterNone(reg.keys, t => t !in h.Mro(C) && t in h.mro && rel.IsSub(C, t));
    assert Related(h, rel, C, reg.keys) == [];
    assert Outermost(h, []) == [] && OrderTypes(h, rel, C, [], [], []) == [];
  }

  lemma JChosen(h: Hierarchy, rel: Relation, reg: Registry, mro: seq<Class>, r: Result<Option<Impl>, DispatchError>)
    requires mro == [C, K, J, I, OBJECT] && reg.impls == map[OBJECT := 10, J := 11, I := 12] && I in h.Mro(C)
    requires IsChoice(h, rel, C, reg, mro, r)
    ensures r == Ok(Some(11))
  {
    assert FirstRegistered(reg, mro, 2);
    assert r == ChoiceAt(h, rel, C, reg, mro, 2);
  }
}
