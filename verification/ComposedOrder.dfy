/** The order that dispatch composes from a class's own order and the registered types, and the
    answer it gives by it. */
module ComposedOrder {
  import opened Results
  import opened Sequences
  import opened C3Merge
  import opened Dispatch
  import opened Linearization

  // ----- the order of the abstract classes -----

  ghost predicate Descending(found: seq<seq<Class>>) {
    forall i, j :: 0 <= i < j < |found| ==> |found[i]| >= |found[j]|
  }

  lemma {:induction false} InsertLongerMembers(s: seq<Class>, sorted: seq<seq<Class>>)
    ensures multiset(InsertLonger(s, sorted)) == multiset(sorted) + multiset{s}
    decreases |sorted|
  {
    if sorted != [] {
      assert sorted == [sorted[0]] + sorted[1..];
      if |s| < |sorted[0]| { InsertLongerMembers(s, sorted[1..]); }
    }
  }

  lemma {:induction false} InsertLongerDescending(s: seq<Class>, sorted: seq<seq<Class>>)
    requires Descending(sorted)
    ensures Descending(InsertLonger(s, sorted))
    decreases |sorted|
  {
    if sorted != [] && |s| < |sorted[0]| {
      var rest := sorted[1..];
      InsertLongerDescending(s, rest);
      InsertLongerMembers(s, rest);
      var t := InsertLonger(s, rest);
      forall j | 0 <= j < |t| ensures |sorted[0]| >= |t[j]| {
        assert t[j] in multiset(t);
        if t[j] != s { assert t[j] in rest; }
      }
    }
  }

  lemma {:induction false} InsertLongerStable(s: seq<Class>, sorted: seq<seq<Class>>, n: nat)
    ensures Filter(InsertLonger(s, sorted), (x: seq<Class>) => |x| == n) == Filter([s] + sorted, (x: seq<Class>) => |x| == n)
    decreases |sorted|
  {
    var keep := (x: seq<Class>) => |x| == n;
    hide Filter;
    if sorted != [] && |s| < |sorted[0]| {
      var rest := sorted[1..];
      InsertLongerStable(s, rest, n);
      assert sorted == [sorted[0]] + rest;
      FilterCons(sorted[0], InsertLonger(s, rest), keep);
      FilterCons(s, rest, keep);
      FilterCons(sorted[0], rest, keep);
      FilterCons(s, sorted, keep);
    }
  }

  /** Longest first, and those of one length as they were found. */
  lemma {:induction false} LongestFirstExact(found: seq<seq<Class>>, n: nat)
    ensures multiset(LongestFirst(found)) == multiset(found) && Descending(LongestFirst(found))
    ensures Filter(LongestFirst(found), (x: seq<Class>) => |x| == n) == Filter(found, (x: seq<Class>) => |x| == n)
    decreases |found|
  {
    if found != [] {
      var first, rest := found[0], found[1..];
      LongestFirstExact(rest, n);
      assert LongestFirst(found) == InsertLonger(first, LongestFirst(rest));
      hide Filter, Descending, LongestFirst, InsertLonger;
      InsertLongerMembers(first, LongestFirst(rest));
      InsertLongerDescending(first, LongestFirst(rest));
      InsertLongerStable(first, LongestFirst(rest), n);
      assert found == [first] + rest;
      FilterCons(first, rest, (x: seq<Class>) => |x| == n);
      FilterCons(first, LongestFirst(rest), (x: seq<Class>) => |x| == n);
    }
  }

  /** Classes are added one by one, those that are there already are passed over. */
  lemma {:induction false} AddNewExact(mro: seq<Class>, s: seq<Class>, x: Class)
    ensures AddNew(mro, s + [x]) == AddNew(mro, s) + if x in AddNew(mro, s) then [] else [x]
    ensures forall y :: y in AddNew(mro, s) <==> y in mro || y in s
    decreases |s|
  {
    if s == [] {
      assert s + [x] == [x] && [x][1..] == [];
    } else {
      assert (s + [x])[0] == s[0] && (s + [x])[1..] == s[1..] + [x];
      AddNewExact(if s[0] in mro then mro else mro + [s[0]], s[1..], x);
    }
  }

  lemma {:induction false} AddAllMembers(mro: seq<Class>, found: seq<seq<Class>>)
    ensures forall y :: y in AddAllNew(mro, found) <==> y in mro || exists s :: s in found && y in s
    decreases |found|
  {
    if found != [] {
      AddNewExact(mro, found[0], 0);
      AddAllMembers(AddNew(mro, found[0]), found[1..]);
      assert forall s :: s in found <==> s == found[0] || s in found[1..];
    }
  }

  /** The part of a related subclass's order that consists of the types. */
  ghost predicate FoundIn(h: Hierarchy, rel: Relation, c: Class, subs: seq<Class>, types: seq<Class>, s: seq<Class>) {
    exists sub :: sub in subs && sub !in h.Mro(c) && rel.IsSub(c, sub) && s == Among(h.Mro(sub), types)
  }

  lemma {:induction false} FoundMembers(h: Hierarchy, rel: Relation, c: Class, subs: seq<Class>, types: seq<Class>)
    ensures forall s :: s in Found(h, rel, c, subs, types) <==> FoundIn(h, rel, c, subs, types, s)
    decreases |subs|
  {
    hide Among;
    if subs != [] {
      FoundMembers(h, rel, c, subs[1..], types);
      assert forall sub :: sub in subs <==> sub == subs[0] || sub in subs[1..];
    }
  }

  /** The subclasses of a class are derived from it. */
  ghost predicate Derived(h: Hierarchy, rel: Relation) {
    forall t, sub :: sub in rel.Subclasses(t) ==> t in h.Mro(sub)
  }

  /** The types put in order are the types. */
  lemma {:induction false} OrderTypesMembers(h: Hierarchy, rel: Relation, c: Class, todo: seq<Class>, types: seq<Class>, mro: seq<Class>)
    requires Derived(h, rel) && (forall t :: t in todo ==> t in types) && (forall t :: t in mro ==> t in types)
    ensures forall t :: t in OrderTypes(h, rel, c, todo, types, mro) ==> t in types
    ensures forall t :: t in mro || t in todo ==> t in OrderTypes(h, rel, c, todo, types, mro)
    decreases |todo|
  {
    if todo != [] {
      var t, found := todo[0], Found(h, rel, c, rel.Subclasses(todo[0]), types);
      var next := if found == [] then mro + [t] else AddAllNew(mro, LongestFirst(found));
      hide Found, LongestFirst, AddAllNew, Derived;
      NextTypes(h, rel, c, t, types, mro);
      OrderTypesMembers(h, rel, c, todo[1..], types, next);
    }
  }

  lemma NextTypes(h: Hierarchy, rel: Relation, c: Class, t: Class, types: seq<Class>, mro: seq<Class>)
    requires Derived(h, rel) && t in types && forall x :: x in mro ==> x in types
    ensures var found := Found(h, rel, c, rel.Subclasses(t), types);
      var next := if found == [] then mro + [t] else AddAllNew(mro, LongestFirst(found));
      && t in next && (forall x :: x in mro ==> x in next) && forall x :: x in next ==> x in types
  {
    var found := Found(h, rel, c, rel.Subclasses(t), types);
    var sorted := LongestFirst(found);
    FoundTypes(h, rel, c, t, types);
    hide Found, LongestFirst, AddAllNew, Descending, Filter;
    LongestFirstExact(found, 0);
    forall s ensures s in sorted <==> s in found {
      assert s in sorted <==> s in multiset(sorted);
    }
    AddAllMembers(mro, sorted);
    if found != [] { assert found[0] in sorted && t in found[0]; }
  }

  lemma FoundTypes(h: Hierarchy, rel: Relation, c: Class, t: Class, types: seq<Class>)
    requires Derived(h, rel) && t in types
    ensures forall s :: s in Found(h, rel, c, rel.Subclasses(t), types) ==> t in s && forall x :: x in s ==> x in types
  {
    FoundMembers(h, rel, c, rel.Subclasses(t), types);
    hide Found;
  }

  /** The registered types are put in order one after the other; what is in order stays in front. */
  lemma {:induction false} OrderTypesAppend(h: Hierarchy, rel: Relation, c: Class, first: seq<Class>, second: seq<Class>,
    types: seq<Class>, mro: seq<Class>)
    ensures OrderTypes(h, rel, c, first + second, types, mro) ==
            OrderTypes(h, rel, c, second, types, OrderTypes(h, rel, c, first, types, mro))
    decreases |first|
  {
    hide Found, AddAllNew, LongestFirst;
    if first == [] {
      assert first + second == second;
    } else {
      var found := Found(h, rel, c, rel.Subclasses(first[0]), types);
      assert (first + second)[0] == first[0] && (first + second)[1..] == first[1..] + second;
      OrderTypesAppend(h, rel, c, first[1..], second, types, if found == [] then mro + [first[0]] else AddAllNew(mro, LongestFirst(found)));
    }
  }

  /** One type: itself, unless related subclasses of it are found. */
  lemma OrderOne(h: Hierarchy, rel: Relation, c: Class, t: Class, types: seq<Class>, mro: seq<Class>)
    requires forall sub :: sub in rel.Subclasses(t) ==> sub in h.Mro(c) || !rel.IsSub(c, sub)
    ensures OrderTypes(h, rel, c, [t], types, mro) == mro + [t]
  {
    var found := Found(h, rel, c, rel.Subclasses(t), types);
    assert found == [] || found[0] in found;
    FoundMembers(h, rel, c, rel.Subclasses(t), types);
    assert [t][1..] == [];
    hide Found;
  }

  // ----- the composed order -----

  /** The types that dispatch goes by: those that `c` is a subclass of without being derived from
      them, except the ones that others of them are derived from. */
  lemma OutermostExact(h: Hierarchy, rel: Relation, c: Class, types: seq<Class>, t: Class)
    ensures t in Outermost(h, Related(h, rel, c, types)) <==>
      && Relevant(h, rel, c, types, t) && t !in h.Mro(c)
      && forall u :: Relevant(h, rel, c, types, u) && u !in h.Mro(c) && u != t ==> t !in h.Mro(u)
  {
    var related := Related(h, rel, c, types);
    forall u ensures u in related <==> Relevant(h, rel, c, types, u) && u !in h.Mro(c) {}
    hide Related;
    assert StrictBaseOfAnother(h, t, related) <==> exists u :: u in related && t != u && t in h.Mro(u) by {
      if u :| u in related && t != u && t in h.Mro(u) { var k :| 0 <= k < |related| && related[k] == u; }
    }
  }

  /** The abstract classes that enter with a class, and those left for its bases. */
  lemma EnteringExact(h: Hierarchy, rel: Relation, c: Class, abcs: seq<Class>, a: Class)
    ensures a in Introduced(h, rel, c, abcs, true) <==>
      a in abcs && rel.IsSub(c, a) && forall b :: b in h.Bases(c) ==> !rel.IsSub(b, a)
    ensures a in Introduced(h, rel, c, abcs, false) <==>
      a in abcs && !(rel.IsSub(c, a) && forall b :: b in h.Bases(c) ==> !rel.IsSub(b, a))
  {
  }

  /** A registered type that `c` is a subclass of. */
  ghost predicate Relevant(h: Hierarchy, rel: Relation, c: Class, types: seq<Class>, t: Class) {
    t in types && t in h.mro && rel.IsSub(c, t)
  }

  /** Every related type is in the order of one that no other is derived from. */
  lemma {:induction false} SomeOutermost(h: Hierarchy, types: seq<Class>, t: Class, limit: nat) returns (top: Class)
    requires Ordered(h) && t in types && forall x :: x in types ==> x in h.mro && x <= limit
    ensures top in Outermost(h, types) && t in h.Mro(top)
    decreases limit - t
  {
    OwnOrder(h, t);
    if StrictBaseOfAnother(h, t, types) {
      var k :| 0 <= k < |types| && t != types[k] && t in h.Mro(types[k]);
      assert types[k] in types;
      OrderBelow(h, types[k], t);
      top := SomeOutermost(h, types, types[k], limit);
      OrderClosed(h, top, types[k], t);
    } else {
      top := t;
    }
  }

  lemma {:induction false} Limit(types: seq<Class>) returns (limit: nat)
    ensures forall x :: x in types ==> x <= limit
  {
    limit := 0;
    if types != [] {
      limit := Limit(types[1..]);
      assert forall x :: x in types ==> x == types[0] || x in types[1..];
      if types[0] > limit { limit := types[0]; }
    }
  }

  /** The composed order holds the order of the class, and the orders of all registered types that it
      is a subclass of; nothing else. */
  lemma ComposedMembers(h: Hierarchy, rel: Relation, c: Class, types: seq<Class>, x: Class)
    requires Ordered(h) && Derived(h, rel) && c in h.mro && ComposeMro(h, rel, c, types).Some?
    ensures x in ComposeMro(h, rel, c, types).value <==>
      x in h.Mro(c) || exists t :: Relevant(h, rel, c, types, t) && x in h.Mro(t)
  {
    var related := Related(h, rel, c, types);
    var outer := Outermost(h, related);
    var abcs := OrderTypes(h, rel, c, outer, outer, []);
    OrderTypesMembers(h, rel, c, outer, outer, []);
    assert forall t :: t in abcs <==> t in outer;
    assert forall t :: t in related <==> Relevant(h, rel, c, types, t) && t !in h.Mro(c);
    assert forall t :: t in outer ==> t in related;
    hide Linearize, OrderTypes, Related, Outermost, Ordered;
    var m := ComposeMro(h, rel, c, types).value;
    if x in m {
      LinearizeOnly(h, rel, c, abcs, x);
      if x !in h.Mro(c) { var a :| a in abcs && x in h.Mro(a); assert Relevant(h, rel, c, types, a); }
    }
    if x in h.Mro(c) {
      LinearizeHas(h, rel, c, abcs, x);
    } else if t :| Relevant(h, rel, c, types, t) && x in h.Mro(t) {
      if t in h.Mro(c) {
        OrderClosed(h, c, t, x);
      } else {
        var limit := Limit(related);
        var top := SomeOutermost(h, related, t, limit);
        OrderClosed(h, top, t, x);
        LinearizeLists(h, rel, c, abcs, top, x);
      }
    }
  }

  /** It starts with the class, unless some such type is derived from it. */
  lemma ComposedStarts(h: Hierarchy, rel: Relation, c: Class, types: seq<Class>)
    requires Ordered(h) && Derived(h, rel) && c in h.mro && ComposeMro(h, rel, c, types).Some?
    requires forall t :: Relevant(h, rel, c, types, t) && c in h.Mro(t) ==> t in h.Mro(c)
    ensures ComposeMro(h, rel, c, types).value != [] && ComposeMro(h, rel, c, types).value[0] == c
  {
    var related := Related(h, rel, c, types);
    var outer := Outermost(h, related);
    var abcs := OrderTypes(h, rel, c, outer, outer, []);
    OrderTypesMembers(h, rel, c, outer, outer, []);
    assert forall t :: t in related <==> Relevant(h, rel, c, types, t) && t !in h.Mro(c);
    assert forall t :: t in outer ==> t in related;
    hide Linearize, OrderTypes, Related, Outermost, Ordered, Derived;
    LinearizeStarts(h, rel, c, abcs);
  }

  /** It lists no class twice, and keeps the order of the bases up to the last abstract one and that of
      the bases behind it. */
  lemma ComposedKeeps(h: Hierarchy, rel: Relation, c: Class, types: seq<Class>)
    requires h.Valid() && ComposeMro(h, rel, c, types).Some?
    ensures var m := ComposeMro(h, rel, c, types).value;
      NoRepeats(m) && Keeps(m, Explicit(h, c)) && Keeps(m, Other(h, c))
  {
    var outer := Outermost(h, Related(h, rel, c, types));
    hide Linearize, OrderTypes, Related, Outermost, Keeps, NoRepeats, Explicit, Other;
    LinearizeKeeps(h, rel, c, OrderTypes(h, rel, c, outer, outer, []));
  }
}
