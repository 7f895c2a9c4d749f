/** The extended linearization: the C3 order of which lists it is, what it holds, what comes first, and
    which orders it keeps. */
module Linearization {
  import opened Results
  import opened Sequences
  import opened C3Merge
  import opened Dispatch

  // ----- the host's orders -----

  function Orders(h: Hierarchy, classes: seq<Class>): seq<seq<Class>> {
    seq(|classes|, i requires 0 <= i < |classes| => h.Mro(classes[i]))
  }

  /** What the host merges: the class, the orders of its bases, and the bases. */
  function Standard(h: Hierarchy, c: Class): seq<seq<Class>> {
    [[c]] + Orders(h, h.Bases(c)) + [h.Bases(c)]
  }

  /** Every class's resolution order is the C3 order of these. */
  ghost predicate Ordered(h: Hierarchy) {
    && h.Valid()
    && forall c :: c in h.mro ==>
        (forall k :: 0 <= k < |h.Bases(c)| ==> h.Bases(c)[k] in h.mro) && IsC3(Standard(h, c), h.Mro(c))
  }

  /** The class occurs in the order of one of the bases, or is one. */
  ghost predicate Inherited(h: Hierarchy, c: Class, x: Class) {
    exists k :: 0 <= k < |h.Bases(c)| && (x == h.Bases(c)[k] || x in h.Mro(h.Bases(c)[k]))
  }

  lemma StandardOccurs(h: Hierarchy, c: Class, x: Class)
    ensures Occurs(x, Standard(h, c)) <==> x == c || Inherited(h, c, x)
  {
    var lists, bases := Standard(h, c), h.Bases(c);
    StandardAt(h, c);
    hide Standard;
    assert lists[0] in lists && bases in lists;
    if Occurs(x, lists) {
      var s :| s in lists && x in s;
      if s == bases {
        var k :| 0 <= k < |bases| && bases[k] == x;
      } else if s != [c] {
        var k :| 0 <= k < |bases| && s == h.Mro(bases[k]);
      }
    }
  }

  /** The lists, one by one. */
  lemma StandardAt(h: Hierarchy, c: Class)
    ensures Standard(h, c)[0] == [c] && h.Bases(c) in Standard(h, c)
    ensures forall k :: 0 <= k < |h.Bases(c)| ==> h.Mro(h.Bases(c)[k]) in Standard(h, c)
    ensures forall s :: s in Standard(h, c) ==>
      s == [c] || s == h.Bases(c) || exists k :: 0 <= k < |h.Bases(c)| && s == h.Mro(h.Bases(c)[k])
  {
    var bases, orders := h.Bases(c), Orders(h, h.Bases(c));
    assert forall s :: s in Standard(h, c) <==> s == [c] || s in orders || s == bases;
    forall k | 0 <= k < |bases| ensures h.Mro(bases[k]) in orders { assert orders[k] in orders; }
  }

  /** An order holds the class and what the orders of its bases hold. */
  lemma OrderMembers(h: Hierarchy, c: Class)
    requires Ordered(h) && c in h.mro
    ensures Consistent(h.Mro(c), Standard(h, c))
    ensures forall x :: x in h.Mro(c) <==> x == c || Inherited(h, c, x)
  {
    var lists := Standard(h, c);
    MergeIsC3(lists, h.Mro(c));
    hide Merge, Consistent, Inherited, Standard, Occurs, IsC3;
    MergeSound(lists);
    forall x ensures Occurs(x, lists) <==> x == c || Inherited(h, c, x) { StandardOccurs(h, c, x); }
  }

  /** Orders hold older classes only. */
  lemma {:induction false} OrderBelow(h: Hierarchy, c: Class, x: Class)
    requires Ordered(h) && c in h.mro && x in h.Mro(c)
    ensures x <= c && x in h.mro && c in h.Mro(c)
    decreases c
  {
    OrderMembers(h, c);
    if x != c {
      var k :| 0 <= k < |h.Bases(c)| && (x == h.Bases(c)[k] || x in h.Mro(h.Bases(c)[k]));
      if x != h.Bases(c)[k] { OrderBelow(h, h.Bases(c)[k], x); }
    }
  }

  lemma OwnOrder(h: Hierarchy, c: Class)
    requires Ordered(h) && c in h.mro
    ensures c in h.Mro(c)
  {
    OrderMembers(h, c);
  }

  /** What is in the order of a class of the order is in the order. */
  lemma {:induction false} OrderClosed(h: Hierarchy, c: Class, x: Class, y: Class)
    requires Ordered(h) && c in h.mro && x in h.Mro(c) && y in h.Mro(x)
    ensures y in h.Mro(c)
    decreases c
  {
    OrderMembers(h, c);
    if x != c {
      var k :| 0 <= k < |h.Bases(c)| && (x == h.Bases(c)[k] || x in h.Mro(h.Bases(c)[k]));
      OwnOrder(h, h.Bases(c)[k]);
      OrderClosed(h, h.Bases(c)[k], x, y);
    }
  }

  // ----- one linearization -----

  /** The linearizations of the classes, one by one. */
  ghost predicate Linearized(h: Hierarchy, rel: Relation, classes: seq<Class>, abcs: seq<Class>, lists: seq<seq<Class>>)
    requires h.Valid()
  {
    |lists| == |classes| && forall i :: 0 <= i < |classes| ==> Linearize(h, rel, classes[i], abcs) == Some(lists[i])
  }

  lemma {:induction false} AllLinearized(h: Hierarchy, rel: Relation, classes: seq<Class>, abcs: seq<Class>, n: nat, c: Class)
    requires h.Valid()
    requires |abcs| <= n && forall k :: 0 <= k < |classes| ==> |abcs| < n || classes[k] < c
    ensures var r := LinearizeAll(h, rel, classes, abcs, n, c);
      if r.Some? then Linearized(h, rel, classes, abcs, r.value)
      else (exists i :: 0 <= i < |classes| && Linearize(h, rel, classes[i], abcs).None?)
    decreases |classes|
  {
    hide Linearize;
    if classes != [] {
      AllLinearized(h, rel, classes[1..], abcs, n, c);
      var first, rest := Linearize(h, rel, classes[0], abcs), LinearizeAll(h, rel, classes[1..], abcs, n, c);
      if first.Some? && rest.Some? {
        var r := [first.value] + rest.value;
        forall i | 0 <= i < |classes| ensures Linearize(h, rel, classes[i], abcs) == Some(r[i]) {
          if i > 0 { assert classes[1..][i - 1] == classes[i]; }
        }
      } else if first.Some? {
        var i :| 0 <= i < |classes[1..]| && Linearize(h, rel, classes[1..][i], abcs).None?;
        assert Linearize(h, rel, classes[i + 1], abcs).None?;
      }
    }
  }

  /** The bases up to the last abstract one, and the others. */
  function Explicit(h: Hierarchy, c: Class): seq<Class> {
    h.Bases(c)[..Boundary(h, h.Bases(c))]
  }

  function Other(h: Hierarchy, c: Class): seq<Class> {
    h.Bases(c)[Boundary(h, h.Bases(c))..]
  }

  /** The lists that the library merges for a class. */
  ghost predicate Merged(h: Hierarchy, rel: Relation, c: Class, abcs: seq<Class>, lists: seq<seq<Class>>)
    requires h.Valid()
  {
    var entering, left := Introduced(h, rel, c, abcs, true), Introduced(h, rel, c, abcs, false);
    var classes := Explicit(h, c) + entering + Other(h, c);
    var n := |classes|;
    && |lists| == n + 4 && lists[0] == [c]
    && Linearized(h, rel, classes, left, lists[1..n + 1])
    && lists[n + 1..] == [Explicit(h, c), entering, Other(h, c)]
  }

  /** A linearization is the C3 order of the class, the linearizations of its abstract bases, of the
      abstract classes that enter with it and of its other bases, and the three lists of these, if
      none of its classes counts as false. */
  lemma LinearizeIsC3(h: Hierarchy, rel: Relation, c: Class, abcs: seq<Class>, order: seq<Class>)
    requires h.Valid()
    ensures Linearize(h, rel, c, abcs) == Some(order) <==>
      !AnyFalsy(order, h.falsy) && exists lists :: Merged(h, rel, c, abcs, lists) && IsC3(lists, order)
  {
    var all := LinearizeMerges(h, rel, c, abcs);
    hide Linearize, Merged, IsC3, AnyFalsy, MergeTruthy;
    if all.Some? {
      TruthyIsC3(all.value, h.falsy);
      forall lists | Merged(h, rel, c, abcs, lists) ensures lists == all.value {
        MergedOnce(h, rel, c, abcs, lists, all.value);
      }
    }
  }

  /** The lists that are merged, if all the linearizations they take exist. */
  lemma LinearizeMerges(h: Hierarchy, rel: Relation, c: Class, abcs: seq<Class>) returns (all: Option<seq<seq<Class>>>)
    requires h.Valid()
    ensures all.Some? ==> Merged(h, rel, c, abcs, all.value) && Linearize(h, rel, c, abcs) == MergeTruthy(all.value, h.falsy)
    ensures all.None? ==> Linearize(h, rel, c, abcs).None? && forall lists :: !Merged(h, rel, c, abcs, lists)
  {
    var explicit, other := Explicit(h, c), Other(h, c);
    var entering, left := Introduced(h, rel, c, abcs, true), Introduced(h, rel, c, abcs, false);
    IntroducedSplit(h, rel, c, abcs);
    var e := LinearizeAll(h, rel, explicit, left, |abcs|, c);
    var a := LinearizeAll(h, rel, entering, left, |abcs|, c);
    var o := LinearizeAll(h, rel, other, left, |abcs|, c);
    LinearizeUnfolds(h, rel, c, abcs);
    AllLinearized(h, rel, explicit, left, |abcs|, c);
    AllLinearized(h, rel, entering, left, |abcs|, c);
    AllLinearized(h, rel, other, left, |abcs|, c);
    hide *;
    if e.Some? && a.Some? && o.Some? {
      all := Some([[c]] + e.value + a.value + o.value + [explicit] + [entering] + [other]);
      ToMerged(h, rel, c, abcs, e.value, a.value, o.value);
    } else {
      all := None;
      forall lists ensures !Merged(h, rel, c, abcs, lists) {
        if Merged(h, rel, c, abcs, lists) { MergedParts(h, rel, c, abcs, lists); }
      }
    }
  }

  lemma LinearizeUnfolds(h: Hierarchy, rel: Relation, c: Class, abcs: seq<Class>)
    requires h.Valid()
    ensures var explicit, other := Explicit(h, c), Other(h, c);
      var entering, left := Introduced(h, rel, c, abcs, true), Introduced(h, rel, c, abcs, false);
      && |left| <= |abcs| && |entering| + |left| == |abcs|
      && var e := LinearizeAll(h, rel, explicit, left, |abcs|, c);
      var a := LinearizeAll(h, rel, entering, left, |abcs|, c);
      var o := LinearizeAll(h, rel, other, left, |abcs|, c);
      Linearize(h, rel, c, abcs) ==
      if e.None? || a.None? || o.None? then None
      else MergeTruthy([[c]] + e.value + a.value + o.value + [explicit] + [entering] + [other], h.falsy)
  {
    hide LinearizeAll, Introduced, MergeTruthy;
    IntroducedSplit(h, rel, c, abcs);
  }

  lemma ToMerged(h: Hierarchy, rel: Relation, c: Class, abcs: seq<Class>, e: seq<seq<Class>>, a: seq<seq<Class>>, o: seq<seq<Class>>)
    requires h.Valid()
    requires Linearized(h, rel, Explicit(h, c), Introduced(h, rel, c, abcs, false), e)
    requires Linearized(h, rel, Introduced(h, rel, c, abcs, true), Introduced(h, rel, c, abcs, false), a)
    requires Linearized(h, rel, Other(h, c), Introduced(h, rel, c, abcs, false), o)
    ensures Merged(h, rel, c, abcs,
      [[c]] + e + a + o + [Explicit(h, c)] + [Introduced(h, rel, c, abcs, true)] + [Other(h, c)])
  {
    var left, explicit, entering, other := Introduced(h, rel, c, abcs, false), Explicit(h, c), Introduced(h, rel, c, abcs, true), Other(h, c);
    var lists := [[c]] + e + a + o + [explicit] + [entering] + [other];
    var n := |explicit + entering + other|;
    hide Linearize, Introduced, Explicit, Other;
    ThreeLinearized(h, rel, left, explicit, e, entering, a, other, o);
    assert |e| == |explicit| && |a| == |entering| && |o| == |other|;
    hide Linearized;
    assert lists[1..n + 1] == e + a + o;
    assert lists[n + 1..] == [explicit, entering, other];
  }

  lemma ThreeLinearized(h: Hierarchy, rel: Relation, abcs: seq<Class>, x: seq<Class>, xs: seq<seq<Class>>,
    y: seq<Class>, ys: seq<seq<Class>>, z: seq<Class>, zs: seq<seq<Class>>)
    requires h.Valid()
    ensures Linearized(h, rel, x, abcs, xs) && Linearized(h, rel, y, abcs, ys) && Linearized(h, rel, z, abcs, zs) ==>
      Linearized(h, rel, x + y + z, abcs, xs + ys + zs)
  {
    hide Linearize;
  }

  lemma MergedParts(h: Hierarchy, rel: Relation, c: Class, abcs: seq<Class>, lists: seq<seq<Class>>)
    requires h.Valid() && Merged(h, rel, c, abcs, lists)
    ensures var left := Introduced(h, rel, c, abcs, false);
      && (forall i :: 0 <= i < |Explicit(h, c)| ==> Linearize(h, rel, Explicit(h, c)[i], left).Some?)
      && (forall i :: 0 <= i < |Other(h, c)| ==> Linearize(h, rel, Other(h, c)[i], left).Some?)
      && (var entering := Introduced(h, rel, c, abcs, true);
          forall i :: 0 <= i < |entering| ==> Linearize(h, rel, entering[i], left).Some?)
  {
    hide Linearize, Introduced;
    var explicit, entering, other := Explicit(h, c), Introduced(h, rel, c, abcs, true), Other(h, c);
    var classes := explicit + entering + other;
    assert forall i :: 0 <= i < |explicit| ==> explicit[i] == classes[i];
    assert forall i :: 0 <= i < |entering| ==> entering[i] == classes[i + |explicit|];
    assert forall i :: 0 <= i < |other| ==> other[i] == classes[i + |explicit| + |entering|];
  }

  lemma MergedOnce(h: Hierarchy, rel: Relation, c: Class, abcs: seq<Class>, lists: seq<seq<Class>>, all: seq<seq<Class>>)
    requires h.Valid() && Merged(h, rel, c, abcs, lists) && Merged(h, rel, c, abcs, all)
    ensures lists == all
  {
    hide Linearize, Introduced;
    var n := |lists| - 4;
    var a, b := lists[1..n + 1], all[1..n + 1];
    forall i | 0 <= i < n ensures a[i] == b[i] {
      var classes := Explicit(h, c) + Introduced(h, rel, c, abcs, true) + Other(h, c);
      assert Linearize(h, rel, classes[i], Introduced(h, rel, c, abcs, false)) == Some(a[i]);
    }
    assert lists == [[c]] + a + lists[n + 1..] && all == [[c]] + b + all[n + 1..];
  }

  // ----- what a linearization holds -----

  /** The bases, and the abstract classes that enter here. */
  ghost predicate Source(h: Hierarchy, rel: Relation, c: Class, abcs: seq<Class>, d: Class) {
    d in h.Bases(c) || (d in abcs && IntroducedAt(h, rel, c, d))
  }

  /** `x` is in the linearization of a source. */
  ghost predicate Contributed(h: Hierarchy, rel: Relation, c: Class, abcs: seq<Class>, x: Class)
    requires h.Valid()
  {
    var left := Introduced(h, rel, c, abcs, false);
    exists d :: Source(h, rel, c, abcs, d) && Linearize(h, rel, d, left).Some? && x in Linearize(h, rel, d, left).value
  }

  lemma Sources(h: Hierarchy, rel: Relation, c: Class, abcs: seq<Class>, d: Class)
    ensures d in Explicit(h, c) + Introduced(h, rel, c, abcs, true) + Other(h, c) <==> Source(h, rel, c, abcs, d)
  {
    assert h.Bases(c) == Explicit(h, c) + Other(h, c);
    hide Boundary, IntroducedAt;
  }

  /** Every list but the first is the linearization of a source or lists sources. */
  lemma MergedAt(h: Hierarchy, rel: Relation, c: Class, abcs: seq<Class>, lists: seq<seq<Class>>, k: nat)
    requires h.Valid() && Merged(h, rel, c, abcs, lists) && 0 < k < |lists|
    ensures (exists d :: Source(h, rel, c, abcs, d) && Linearize(h, rel, d, Introduced(h, rel, c, abcs, false)) == Some(lists[k]))
      || forall x :: x in lists[k] ==> Source(h, rel, c, abcs, x)
  {
    var explicit, entering, other := Explicit(h, c), Introduced(h, rel, c, abcs, true), Other(h, c);
    var classes := explicit + entering + other;
    var n := |classes|;
    forall d ensures d in classes <==> Source(h, rel, c, abcs, d) { Sources(h, rel, c, abcs, d); }
    hide Linearize, Introduced, Explicit, Other, Source;
    if k <= n {
      assert classes[k - 1] in classes && lists[1..n + 1][k - 1] == lists[k];
    } else {
      assert lists[k] == lists[n + 1..][k - n - 1];
      assert lists[k] == explicit || lists[k] == entering || lists[k] == other;
    }
  }

  lemma MergedOccurs(h: Hierarchy, rel: Relation, c: Class, abcs: seq<Class>, lists: seq<seq<Class>>, x: Class)
    requires h.Valid() && Merged(h, rel, c, abcs, lists)
    ensures Occurs(x, lists) <==> x == c || Source(h, rel, c, abcs, x) || Contributed(h, rel, c, abcs, x)
  {
    MergedHas(h, rel, c, abcs, lists, x);
    if Occurs(x, lists) {
      var s :| s in lists && x in s;
      var k :| 0 <= k < |lists| && lists[k] == s;
      ListsStart(h, rel, c, abcs, lists);
      hide Merged, Linearize, Introduced, Source;
      if k > 0 { MergedAt(h, rel, c, abcs, lists, k); }
    }
  }

  lemma MergedHas(h: Hierarchy, rel: Relation, c: Class, abcs: seq<Class>, lists: seq<seq<Class>>, x: Class)
    requires h.Valid() && Merged(h, rel, c, abcs, lists)
    ensures x == c || Source(h, rel, c, abcs, x) || Contributed(h, rel, c, abcs, x) ==> Occurs(x, lists)
  {
    MergesEnds(h, rel, c, abcs, lists);
    Sources(h, rel, c, abcs, x);
    assert lists[0] in lists;
    hide Linearize, Introduced, Explicit, Other, Source, Merged;
    if Contributed(h, rel, c, abcs, x) {
      var d :| Source(h, rel, c, abcs, d) && Linearize(h, rel, d, Introduced(h, rel, c, abcs, false)).Some?
        && x in Linearize(h, rel, d, Introduced(h, rel, c, abcs, false)).value;
      MergesSource(h, rel, c, abcs, lists, d);
    }
  }

  /** A linearization holds the class and what the linearizations of its sources hold. */
  lemma LinearizeMembers(h: Hierarchy, rel: Relation, c: Class, abcs: seq<Class>)
    requires h.Valid() && Linearize(h, rel, c, abcs).Some?
    ensures var m := Linearize(h, rel, c, abcs).value;
      forall x :: x in m <==> x == c || Source(h, rel, c, abcs, x) || Contributed(h, rel, c, abcs, x)
  {
    var all := LinearizeMerges(h, rel, c, abcs);
    var m := Linearize(h, rel, c, abcs).value;
    hide Linearize, Merged, Occurs, Merge, Source, Contributed, Consistent;
    MergeSound(all.value);
    forall x ensures x in m <==> x == c || Source(h, rel, c, abcs, x) || Contributed(h, rel, c, abcs, x) {
      MergedOccurs(h, rel, c, abcs, all.value, x);
    }
  }

  /** The linearizations of the sources exist, and their order and that of the bases up to the last
      abstract one, of the other bases, and of the entering classes are kept. */
  lemma LinearizeKeeps(h: Hierarchy, rel: Relation, c: Class, abcs: seq<Class>)
    requires h.Valid() && Linearize(h, rel, c, abcs).Some?
    ensures var m, left := Linearize(h, rel, c, abcs).value, Introduced(h, rel, c, abcs, false);
      && NoRepeats(m)
      && Keeps(m, Explicit(h, c)) && Keeps(m, Other(h, c)) && Keeps(m, Introduced(h, rel, c, abcs, true))
      && forall d :: Source(h, rel, c, abcs, d) ==>
          Linearize(h, rel, d, left).Some? && Keeps(m, Linearize(h, rel, d, left).value)
  {
    var all := LinearizeMerges(h, rel, c, abcs);
    hide Linearize, Occurs, Merge, Source, Keeps, NoRepeats, Introduced, Explicit, Other, Merged;
    MergeSound(all.value);
    forall d | Source(h, rel, c, abcs, d)
      ensures var l := Linearize(h, rel, d, Introduced(h, rel, c, abcs, false)); l.Some? && l.value in all.value
    {
      MergesSource(h, rel, c, abcs, all.value, d);
    }
    MergesEnds(h, rel, c, abcs, all.value);
  }

  lemma MergesSource(h: Hierarchy, rel: Relation, c: Class, abcs: seq<Class>, lists: seq<seq<Class>>, d: Class)
    requires h.Valid() && Merged(h, rel, c, abcs, lists) && Source(h, rel, c, abcs, d)
    ensures var l := Linearize(h, rel, d, Introduced(h, rel, c, abcs, false)); l.Some? && l.value in lists
  {
    var classes := Explicit(h, c) + Introduced(h, rel, c, abcs, true) + Other(h, c);
    var n := |classes|;
    Sources(h, rel, c, abcs, d);
    hide Linearize, Introduced, Source, Explicit, Other;
    var i :| 0 <= i < n && classes[i] == d;
    assert lists[1..n + 1][i] in lists;
  }

  lemma MergesEnds(h: Hierarchy, rel: Relation, c: Class, abcs: seq<Class>, lists: seq<seq<Class>>)
    requires h.Valid() && Merged(h, rel, c, abcs, lists)
    ensures Explicit(h, c) in lists && Introduced(h, rel, c, abcs, true) in lists && Other(h, c) in lists
  {
    hide Linearize, Introduced, Explicit, Other;
    var n := |lists| - 4;
    assert lists[n + 1..][0] in lists && lists[n + 1..][1] in lists && lists[n + 1..][2] in lists;
  }

  /** Fewer classes are left when one has entered. */
  lemma LeftFewer(h: Hierarchy, rel: Relation, c: Class, abcs: seq<Class>)
    ensures |Introduced(h, rel, c, abcs, false)| <= |abcs|
    ensures forall a :: a in abcs && IntroducedAt(h, rel, c, a) ==> |Introduced(h, rel, c, abcs, false)| < |abcs|
    ensures forall a :: a in Introduced(h, rel, c, abcs, false) <==> a in abcs && !IntroducedAt(h, rel, c, a)
  {
    IntroducedSplit(h, rel, c, abcs);
    forall a | a in abcs && IntroducedAt(h, rel, c, a) ensures Introduced(h, rel, c, abcs, true) != [] {
      assert a in Introduced(h, rel, c, abcs, true);
    }
  }

  ghost predicate InOrders(h: Hierarchy, abcs: seq<Class>, x: Class) {
    exists a :: a in abcs && x in h.Mro(a)
  }

  /** Nothing comes from outside the orders of the class and of the abstract classes. */
  lemma {:induction false} LinearizeOnly(h: Hierarchy, rel: Relation, c: Class, abcs: seq<Class>, x: Class)
    requires Ordered(h) && c in h.mro && (forall a :: a in abcs ==> a in h.mro) && Linearize(h, rel, c, abcs).Some?
    requires x in Linearize(h, rel, c, abcs).value
    ensures x in h.Mro(c) || InOrders(h, abcs, x)
    decreases |abcs|, c
  {
    LinearizeMembers(h, rel, c, abcs);
    LeftFewer(h, rel, c, abcs);
    OrderMembers(h, c);
    var left := Introduced(h, rel, c, abcs, false);
    hide Linearize, Introduced, IntroducedAt, IsC3;
    if Contributed(h, rel, c, abcs, x) {
      var d :| Source(h, rel, c, abcs, d) && Linearize(h, rel, d, left).Some? && x in Linearize(h, rel, d, left).value;
      if d in h.Bases(c) { BaseOlder(h, c, d); }
      LinearizeOnly(h, rel, d, left, x);
    } else if x in abcs {
      OwnOrder(h, x);
    } else if x in h.Bases(c) {
      BaseOlder(h, c, x);
    }
  }

  lemma BaseOlder(h: Hierarchy, c: Class, d: Class)
    requires Ordered(h) && c in h.mro && d in h.Bases(c)
    ensures d < c && d in h.mro && d in h.Mro(c) && forall y :: y in h.Mro(d) ==> y in h.Mro(c)
  {
    var k :| 0 <= k < |h.Bases(c)| && h.Bases(c)[k] == d;
    assert h.Bases(c)[k] < c;
    OrderMembers(h, c);
    assert forall y :: y in h.Mro(h.Bases(c)[k]) ==> Inherited(h, c, y);
    assert Inherited(h, c, h.Bases(c)[k]);
  }

  /** The whole order of the class is there, */
  lemma {:induction false} LinearizeHas(h: Hierarchy, rel: Relation, c: Class, abcs: seq<Class>, x: Class)
    requires Ordered(h) && c in h.mro && Linearize(h, rel, c, abcs).Some? && x in h.Mro(c)
    ensures x in Linearize(h, rel, c, abcs).value
    decreases c
  {
    LinearizeMembers(h, rel, c, abcs);
    LinearizeKeeps(h, rel, c, abcs);
    OrderMembers(h, c);
    var left := Introduced(h, rel, c, abcs, false);
    hide Linearize, Introduced, IntroducedAt, IsC3, Keeps;
    if x != c {
      var k :| 0 <= k < |h.Bases(c)| && (x == h.Bases(c)[k] || x in h.Mro(h.Bases(c)[k]));
      var d := h.Bases(c)[k];
      assert d in h.Bases(c) && Source(h, rel, c, abcs, d);
      BaseOlder(h, c, d);
      OwnOrder(h, d);
      LinearizeHas(h, rel, d, left, x);
      assert Contributed(h, rel, c, abcs, x);
    }
  }

  /** and so is the order of every abstract class that it is a subclass of. */
  lemma {:induction false} LinearizeLists(h: Hierarchy, rel: Relation, c: Class, abcs: seq<Class>, a: Class, x: Class)
    requires Ordered(h) && c in h.mro && Linearize(h, rel, c, abcs).Some?
    requires a in abcs && a in h.mro && rel.IsSub(c, a) && x in h.Mro(a)
    ensures x in Linearize(h, rel, c, abcs).value
    decreases c
  {
    LinearizeMembers(h, rel, c, abcs);
    LinearizeKeeps(h, rel, c, abcs);
    LeftFewer(h, rel, c, abcs);
    var left := Introduced(h, rel, c, abcs, false);
    hide Linearize, Introduced, Ordered, Keeps;
    if IntroducedAt(h, rel, c, a) {
      assert Source(h, rel, c, abcs, a);
      LinearizeHas(h, rel, a, left, x);
    } else {
      var k :| 0 <= k < |h.Bases(c)| && rel.IsSub(h.Bases(c)[k], a);
      var d := h.Bases(c)[k];
      assert d in h.Bases(c) && Source(h, rel, c, abcs, d);
      BaseOlder(h, c, d);
      LinearizeLists(h, rel, d, left, a, x);
    }
    assert Contributed(h, rel, c, abcs, x);
  }

  /** The class comes first, unless an abstract class is derived from it. */
  lemma LinearizeStarts(h: Hierarchy, rel: Relation, c: Class, abcs: seq<Class>)
    requires Ordered(h) && c in h.mro && Linearize(h, rel, c, abcs).Some?
    requires forall a :: a in abcs ==> a in h.mro && c !in h.Mro(a)
    ensures Linearize(h, rel, c, abcs).value != [] && Linearize(h, rel, c, abcs).value[0] == c
  {
    var all := LinearizeMerges(h, rel, c, abcs);
    var lists, m := all.value, Linearize(h, rel, c, abcs).value;
    LinearizeMembers(h, rel, c, abcs);
    forall k | 0 < k < |lists| ensures c !in lists[k] { NotInOthers(h, rel, c, abcs, lists, k); }
    ListsStart(h, rel, c, abcs, lists);
    hide Linearize, Merged, Ordered, Merge, IsC3;
    MergeIsC3(lists, m);
    AloneFirst(lists, m, c);
  }

  lemma ListsStart(h: Hierarchy, rel: Relation, c: Class, abcs: seq<Class>, lists: seq<seq<Class>>)
    requires h.Valid() && Merged(h, rel, c, abcs, lists)
    ensures |lists| > 0 && lists[0] == [c]
  {
  }

  lemma NotInOthers(h: Hierarchy, rel: Relation, c: Class, abcs: seq<Class>, lists: seq<seq<Class>>, k: nat)
    requires Ordered(h) && c in h.mro && Merged(h, rel, c, abcs, lists) && 0 < k < |lists|
    requires forall a :: a in abcs ==> a in h.mro && c !in h.Mro(a)
    ensures c !in lists[k]
  {
    LeftFewer(h, rel, c, abcs);
    forall d | Source(h, rel, c, abcs, d) ensures d != c && d in h.mro && c !in h.Mro(d) {
      if d in h.Bases(c) {
        BaseOlder(h, c, d);
        if c in h.Mro(d) { OrderBelow(h, d, c); }
      } else {
        OwnOrder(h, d);
      }
    }
    hide Linearize, Introduced, Merged, Source;
    MergedAt(h, rel, c, abcs, lists, k);
    hide Ordered;
    if d :| Source(h, rel, c, abcs, d) && Linearize(h, rel, d, Introduced(h, rel, c, abcs, false)) == Some(lists[k]) {
      if c in lists[k] { LinearizeOnly(h, rel, d, Introduced(h, rel, c, abcs, false), c); }
    }
  }
}
