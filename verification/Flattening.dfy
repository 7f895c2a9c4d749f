/** The traversal that streamlines a grammar in place: children first, then the list itself,
    forwards at most once. */
module Flattening {
  import opened Results
  import opened Grammar
  import opened Meanings
  import opened Splice
  import opened Mirrors
  import opened Leading
  import opened Streamline
  import opened Plans

  /** Forwards not streamlined yet. */
  ghost function Pending(g: Table): set<Id> {
    set id | id in g && g[id].kind.Forward? && !g[id].kind.streamlined
  }

  // ----- one list -----

  /** What stands for member `x` of a list of class `k` once plain nested lists are opened. */
  function Part(g: Table, k: Kind, x: Id): seq<Id> {
    if Foldable(k, Lookup(g, x)) then Lookup(g, x).kind.exprs else [x]
  }

  predicate PartMay(g: Table, k: Kind, x: Id) {
    Foldable(k, Lookup(g, x)) && Lookup(g, x).mayIndexError
  }

  function Opened(g: Table, id: Id): seq<Id>
    requires Composite(Lookup(g, id).kind)
  {
    var k := Lookup(g, id).kind;
    if |k.exprs| == 2 then Part(g, k, k.exprs[0]) + Part(g, k, k.exprs[1]) else k.exprs
  }

  predicate OpenedMay(g: Table, id: Id)
    requires Composite(Lookup(g, id).kind)
  {
    var n := Lookup(g, id);
    n.mayIndexError || (|n.kind.exprs| == 2 && (PartMay(g, n.kind, n.kind.exprs[0]) || PartMay(g, n.kind, n.kind.exprs[1])))
  }

  /** The table with other members, and another index error flag, for one list. */
  function Relist(g: Table, id: Id, ids: seq<Id>, may: bool): Table
    requires id in g && Composite(g[id].kind)
  {
    g[id := g[id].(kind := WithExprs(g[id].kind, ids), mayIndexError := may)]
  }

  /** The table after the first member of a list of two was opened. */
  function FirstDone(g: Table, id: Id): Table
    requires id in g && Composite(g[id].kind) && |g[id].kind.exprs| == 2
  {
    var k := g[id].kind;
    Relist(g, id, [] + Part(g, k, k.exprs[0]) + [k.exprs[1]], g[id].mayIndexError || PartMay(g, k, k.exprs[0]))
  }

  lemma RelistSame(g: Table, id: Id)
    requires id in g && Composite(g[id].kind)
    ensures Relist(g, id, g[id].kind.exprs, g[id].mayIndexError) == g
  {
    assert WithExprs(g[id].kind, g[id].kind.exprs) == g[id].kind;
    assert g[id].(kind := g[id].kind, mayIndexError := g[id].mayIndexError) == g[id];
  }

  lemma RelistTwice(g: Table, id: Id, a: seq<Id>, b: seq<Id>, may: bool, may': bool)
    requires id in g && Composite(g[id].kind)
    ensures Relist(Relist(g, id, a, may), id, b, may') == Relist(g, id, b, may')
  {
    assert WithExprs(WithExprs(g[id].kind, a), b) == WithExprs(g[id].kind, b);
    hide WithExprs;
  }

  lemma RelistAt(g: Table, id: Id, ids: seq<Id>, may: bool, x: Id)
    requires id in g && Composite(g[id].kind)
    ensures Lookup(Relist(g, id, ids, may), id) == g[id].(kind := WithExprs(g[id].kind, ids), mayIndexError := may)
    ensures x != id ==> Lookup(Relist(g, id, ids, may), x) == Lookup(g, x)
    ensures SameClass(g[id].kind, WithExprs(g[id].kind, ids)) && WithExprs(g[id].kind, ids).exprs == ids
  {
  }

  lemma SamePending(g: Table, id: Id, n: Node)
    requires id in g && !g[id].kind.Forward? && !n.kind.Forward?
    ensures Pending(g[id := n]) == Pending(g)
  {
  }

  lemma MeaningTransitive(a: Table, b: Table, c: Table)
    requires SameMeaning(a, b) && SameMeaning(b, c)
    ensures SameMeaning(a, c)
  {
    hide Meaning;
  }

  /** A list of two after its first member was opened. */
  lemma FirstOpened(g0: Table, g1: Table, id: Id)
    requires id in g0 && Composite(g0[id].kind) && |g0[id].kind.exprs| == 2
    requires g1 == FirstDone(g0, id)
    ensures var k := g0[id].kind;
            id in g1 && SameClass(k, g1[id].kind) && |g1[id].kind.exprs| > 0 &&
            g1[id].kind.exprs == Part(g0, k, k.exprs[0]) + [k.exprs[1]] &&
            g1[id].kind.exprs[..|g1[id].kind.exprs| - 1] == Part(g0, k, k.exprs[0]) &&
            g1[id].kind.exprs == g1[id].kind.exprs[..|g1[id].kind.exprs| - 1] + [k.exprs[1]] + [] &&
            (Converts(g0[id]) ==> Converts(g1[id]))
  {
    var k := g0[id].kind;
    hide Part, PartMay;
    RelistAt(g0, id, [] + Part(g0, k, k.exprs[0]) + [k.exprs[1]], g0[id].mayIndexError || PartMay(g0, k, k.exprs[0]), k.exprs[1]);
    assert [] + Part(g0, k, k.exprs[0]) == Part(g0, k, k.exprs[0]);
  }

  /** Then its last one. */
  lemma LastOpened(g0: Table, g1: Table, g2: Table, id: Id)
    requires id in g0 && Composite(g0[id].kind) && |g0[id].kind.exprs| == 2 && g0[id].kind.exprs[1] != id
    requires g1 == FirstDone(g0, id)
    requires id in g1 && Composite(g1[id].kind)
    requires var k := g0[id].kind;
             g2 == Relist(g1, id, Part(g0, k, k.exprs[0]) + Part(g1, g1[id].kind, k.exprs[1]) + [],
                          g1[id].mayIndexError || PartMay(g1, g1[id].kind, k.exprs[1]))
    ensures g2 == Relist(g0, id, Opened(g0, id), OpenedMay(g0, id))
  {
    var k, may := g0[id].kind, g0[id].mayIndexError || PartMay(g0, g0[id].kind, g0[id].kind.exprs[0]);
    var a, b := Part(g0, k, k.exprs[0]), Part(g0, k, k.exprs[1]);
    PartAt(g0, id, [] + a + [k.exprs[1]], may, k.exprs[1]);
    assert g1[id].mayIndexError == may;
    hide Part, PartMay, Relist;
    RelistTwice(g0, id, [] + a + [k.exprs[1]], a + b + [], may, OpenedMay(g0, id));
    assert a + b + [] == a + b;
  }

  lemma PartAt(g: Table, id: Id, ids: seq<Id>, may: bool, x: Id)
    requires id in g && Composite(g[id].kind) && x != id
    ensures var g' := Relist(g, id, ids, may);
            Part(g', g'[id].kind, x) == Part(g, g[id].kind, x) && PartMay(g', g'[id].kind, x) == PartMay(g, g[id].kind, x)
  {
  }

  lemma RankedPair(g: Table, rank: Id -> nat, id: Id)
    requires Ranked(g, rank) && id in g && Composite(g[id].kind) && |g[id].kind.exprs| == 2
    ensures g[id].kind.exprs[0] != id && g[id].kind.exprs[1] != id
  {
    assert RankedNode(g[id], rank, rank(id));
    assert rank(Children(g[id].kind)[0]) < rank(id) && rank(Children(g[id].kind)[1]) < rank(id);
  }

  // ----- what the plan grants -----

  lemma FirstSafe(g: Table, p: Plan, id: Id)
    requires Planned(g, p) && id in g && Composite(g[id].kind) && |g[id].kind.exprs| == 2
    requires var a, b := g[id].kind.exprs[0], g[id].kind.exprs[1]; Site(g, id, [], a, [b])
    ensures var a, b := g[id].kind.exprs[0], g[id].kind.exprs[1];
            SafeSite(g, id, [], a, [b]) && Granted(g, p, id, [], a)
  {
    var a, m := g[id].kind.exprs[0], Lookup(g, g[id].kind.exprs[0]);
    assert NodePlanned(g, p, id) && NodePlanned(g, p, a);
    if g[id].kind.And? && a in p.calm { StopsOfTail(g, m.kind.exprs); }
    hide Planned, HasStop, IsStop, SameLead, Ignored, Blanks;
  }

  lemma StopsOfTail(g: Table, ids: seq<Id>)
    ensures ids != [] && HasStop(g, ids[1..]) ==> HasStop(g, ids)
  {
    if ids != [] { HasStopCons(g, ids); }
    hide HasStop;
  }

  lemma LastSafe(g: Table, p: Plan, id: Id, zs: seq<Id>, b: Id)
    requires Planned(g, p) && Site(g, id, zs, b, []) && zs != []
    requires b in p.full && b in p.led && Converts(g[id])
    ensures SafeSite(g, id, zs, b, [])
  {
    assert NodePlanned(g, p, b);
    hide Planned, HasStop, IsStop, SameLead, Ignored, Blanks;
  }

  /** What is known of the last member before the first one is opened. */
  lemma LastGranted(g: Table, p: Plan, id: Id, zs: seq<Id>)
    requires Planned(g, p) && id in g && Composite(g[id].kind) && |g[id].kind.exprs| == 2
    requires zs != [] && Foldable(g[id].kind, Lookup(g, g[id].kind.exprs[1]))
    ensures var b := g[id].kind.exprs[1]; b in p.full && b in p.led && Converts(g[id]) && Granted(g, p, id, zs, b)
  {
    assert NodePlanned(g, p, id);
    hide Planned, HasStop, IsStop, SameLead, Ignored, Blanks;
  }

  lemma StillGranted(g: Table, g': Table, p: Plan, id: Id, zs: seq<Id>, x: Id)
    requires Granted(g, p, id, zs, x) && Lookup(g, id).kind.And? == Lookup(g', id).kind.And?
    ensures Granted(g', p, id, zs, x)
  {
  }

  lemma FirstHasMembers(g: Table, p: Plan, id: Id)
    requires Planned(g, p) && id in g && Composite(g[id].kind) && |g[id].kind.exprs| == 2
    ensures Part(g, g[id].kind, g[id].kind.exprs[0]) != []
  {
    assert NodePlanned(g, p, id) && NodePlanned(g, p, g[id].kind.exprs[0]);
    hide Planned, HasStop, IsStop, SameLead, Calm, Led, Marked;
  }

  /** Both members of a list of two before anything is opened. */
  lemma PairReady(g: Table, p: Plan, id: Id)
    requires Planned(g, p) && id in g && Composite(g[id].kind) && |g[id].kind.exprs| == 2
    ensures var k := g[id].kind; var a, b := k.exprs[0], k.exprs[1];
            && a != id && b != id && Part(g, k, a) != []
            && (Foldable(k, Lookup(g, a)) ==> Site(g, id, [], a, [b]) && SafeSite(g, id, [], a, [b]) && Granted(g, p, id, [], a))
            && (Foldable(k, Lookup(g, b)) ==>
                  b in p.full && b in p.led && Converts(g[id]) && Granted(g, p, id, Part(g, k, a), b))
  {
    var k := g[id].kind;
    var a, b := k.exprs[0], k.exprs[1];
    RankedPair(g, p.rank, id);
    assert k.exprs == [] + [a] + [b];
    FirstHasMembers(g, p, id);
    if Foldable(k, Lookup(g, a)) { FirstSafe(g, p, id); }
    if Foldable(k, Lookup(g, b)) { LastGranted(g, p, id, Part(g, k, a)); }
    hide Planned, SafeSite, Granted, Converts, Foldable, Part;
  }

  /** The last member may still be opened after the first one was. */
  lemma LastReady(g0: Table, g1: Table, p: Plan, id: Id, zs: seq<Id>)
    requires Planned(g1, p) && id in g0 && Composite(g0[id].kind) && |g0[id].kind.exprs| == 2
    requires var k := g0[id].kind;
             k.exprs[1] != id && Lookup(g1, k.exprs[1]) == Lookup(g0, k.exprs[1]) && zs == Part(g0, k, k.exprs[0]) && zs != [] &&
             id in g1 && SameClass(k, g1[id].kind) && g1[id].kind.exprs == zs + [k.exprs[1]] + [] &&
             (Converts(g0[id]) ==> Converts(g1[id]))
    requires var k := g0[id].kind; Foldable(k, Lookup(g0, k.exprs[1])) ==>
               k.exprs[1] in p.full && k.exprs[1] in p.led && Converts(g0[id]) && Granted(g0, p, id, zs, k.exprs[1])
    ensures var b := g0[id].kind.exprs[1]; Foldable(g1[id].kind, Lookup(g1, b)) ==>
              SafeSite(g1, id, zs, b, []) && Granted(g1, p, id, zs, b)
  {
    var b := g0[id].kind.exprs[1];
    if Foldable(g1[id].kind, Lookup(g1, b)) {
      LastSafe(g1, p, id, zs, b);
      StillGranted(g0, g1, p, id, zs, b);
    }
    hide Planned, SafeSite;
  }

  /** Where a list of two stands after its first member was opened, ready for its last one. */
  lemma Halfway(g0: Table, g1: Table, p: Plan, id: Id)
    requires Planned(g0, p) && Planned(g1, p) && id in g0 && Composite(g0[id].kind) && |g0[id].kind.exprs| == 2
    requires g1 == FirstDone(g0, id)
    ensures id in g1 && Composite(g1[id].kind) && |g1[id].kind.exprs| > 1
    ensures var ids, b := g1[id].kind.exprs, g0[id].kind.exprs[1];
            var zs := ids[..|ids| - 1];
            && zs == Part(g0, g0[id].kind, g0[id].kind.exprs[0]) && ids == zs + [b] + [] && b != id
            && (Foldable(g1[id].kind, Lookup(g1, b)) ==> SafeSite(g1, id, zs, b, []) && Granted(g1, p, id, zs, b))
  {
    var b := g0[id].kind.exprs[1];
    PairReady(g0, p, id);
    FirstOpened(g0, g1, id);
    assert Lookup(g1, b) == Lookup(g0, b);
    hide Foldable, Converts, Lookup, Planned, Relist, FirstDone, Part, PartMay, SafeSite, Granted;
    LastReady(g0, g1, p, id, g1[id].kind.exprs[..|g1[id].kind.exprs| - 1]);
  }

  // ----- what the whole traversal leaves behind -----

  /** All lists have at least two members. */
  predicate Thick(g: Table) {
    forall id :: id in g && Composite(g[id].kind) ==> |g[id].kind.exprs| >= 2
  }

  /** The members of a two-member list with every plain nested two-member list opened, as deep
      as such lists go. */
  ghost function Spine(g: Table, rank: Id -> nat, id: Id): seq<Id>
    requires Ranked(g, rank)
    decreases rank(id)
  {
    var k := Lookup(g, id).kind;
    if !Composite(k) then []
    else if |k.exprs| != 2 then k.exprs
    else
      assert RankedNode(g[id], rank, rank(id));
      Branch(g, rank, k, rank(id), k.exprs[0]) + Branch(g, rank, k, rank(id), k.exprs[1])
  }

  ghost function Branch(g: Table, rank: Id -> nat, k: Kind, r: nat, x: Id): seq<Id>
    requires Ranked(g, rank) && rank(x) < r
    decreases r, 0
  {
    if Foldable(k, Lookup(g, x)) then Spine(g, rank, x) else [x]
  }

  lemma {:induction false} SpineLength(g: Table, rank: Id -> nat, id: Id)
    requires Ranked(g, rank) && Thick(g) && Composite(Lookup(g, id).kind)
    ensures var k := Lookup(g, id).kind;
            |Spine(g, rank, id)| >= 2 && (|Spine(g, rank, id)| == 2 ==> Spine(g, rank, id) == k.exprs) &&
            (|Spine(g, rank, id)| == 2 ==>
              !Foldable(k, Lookup(g, k.exprs[0])) && !Foldable(k, Lookup(g, k.exprs[1])))
    decreases rank(id)
  {
    var k := Lookup(g, id).kind;
    if |k.exprs| == 2 {
      assert RankedNode(g[id], rank, rank(id));
      if Foldable(k, Lookup(g, k.exprs[0])) { SpineLength(g, rank, k.exprs[0]); }
      if Foldable(k, Lookup(g, k.exprs[1])) { SpineLength(g, rank, k.exprs[1]); }
    }
  }

  /** How a binary operator, used again and again, nests its lists. */
  datatype Tree = Tip(id: Id) | Fork(id: Id, left: Tree, right: Tree)

  function Tips(t: Tree): seq<Id> {
    match t
    case Tip(id) => [id]
    case Fork(_, left, right) => Tips(left) + Tips(right)
  }

  /** No action, no result name, no tracing. */
  predicate Plainly(n: Node) {
    n.action.None? && !n.named && !n.debug
  }

  /** Forks are lists of two of one class. Below the top they are plain, and what is no fork is of
      another class or is not plain. */
  ghost predicate Nested(g: Table, k: Kind, t: Tree) {
    t.Fork? ==>
      && SameClass(k, Lookup(g, t.id).kind) && Lookup(g, t.id).kind.exprs == [t.left.id, t.right.id]
      && (t.left.Fork? <==> SameClass(k, Lookup(g, t.left.id).kind) && Plainly(Lookup(g, t.left.id)))
      && (t.right.Fork? <==> SameClass(k, Lookup(g, t.right.id).kind) && Plainly(Lookup(g, t.right.id)))
      && Nested(g, k, t.left) && Nested(g, k, t.right)
  }

  /** The spine of the top is the list of the tips. */
  lemma {:induction false} TreeOpens(g: Table, rank: Id -> nat, k: Kind, t: Tree)
    requires Ranked(g, rank) && t.Fork? && Nested(g, k, t)
    ensures Spine(g, rank, t.id) == Tips(t)
  {
    ForkSpine(g, rank, k, t);
    if t.left.Fork? { TreeOpens(g, rank, k, t.left); }
    if t.right.Fork? { TreeOpens(g, rank, k, t.right); }
    hide Spine, Ranked, SameClass;
  }

  lemma ForkSpine(g: Table, rank: Id -> nat, k: Kind, t: Tree)
    requires Ranked(g, rank) && t.Fork? && Nested(g, k, t)
    ensures Spine(g, rank, t.id) ==
      (if t.left.Fork? then Spine(g, rank, t.left.id) else [t.left.id])
      + (if t.right.Fork? then Spine(g, rank, t.right.id) else [t.right.id])
  {
    assert RankedNode(g[t.id], rank, rank(t.id));
    hide Ranked;
  }

  /** An element is as it was, or a list that has been streamlined, or a marked forward. */
  ghost predicate Stage(g0: Table, rank: Id -> nat, id: Id, n: Node)
    requires Ranked(g0, rank)
  {
    var n0 := Lookup(g0, id);
    if Composite(n0.kind) then
      n == n0.(kind := n.kind, mayIndexError := n.mayIndexError) && SameClass(n0.kind, n.kind) &&
      (n.kind.exprs == n0.kind.exprs || n.kind.exprs == Spine(g0, rank, id))
    else SameRule(n0, n)
  }

  ghost predicate Progress(g0: Table, rank: Id -> nat, g: Table)
    requires Ranked(g0, rank)
  {
    forall id :: Stage(g0, rank, id, Lookup(g, id))
  }

  ghost predicate Settled(g0: Table, rank: Id -> nat, g: Table, id: Id)
    requires Ranked(g0, rank)
  {
    Composite(Lookup(g0, id).kind) ==>
      Composite(Lookup(g, id).kind) && Lookup(g, id).kind.exprs == Spine(g0, rank, id)
  }

  /** Lists settled before are settled after. */
  ghost predicate Grown(g0: Table, rank: Id -> nat, a: Table, b: Table)
    requires Ranked(g0, rank)
  {
    forall id :: Settled(g0, rank, a, id) ==> Settled(g0, rank, b, id)
  }

  lemma GrownTransitive(g0: Table, rank: Id -> nat, a: Table, b: Table, c: Table)
    requires Ranked(g0, rank) && Grown(g0, rank, a, b) && Grown(g0, rank, b, c)
    ensures Grown(g0, rank, a, c)
  {
    hide Settled;
  }

  lemma StageKeepsFoldable(g0: Table, rank: Id -> nat, g: Table, k: Kind, x: Id)
    requires Ranked(g0, rank) && Progress(g0, rank, g)
    ensures Foldable(k, Lookup(g, x)) == Foldable(k, Lookup(g0, x))
  {
    hide Ranked, Spine;
    assert Stage(g0, rank, x, Lookup(g, x));
  }

  /** Opening a list whose plain members are settled settles it. */
  lemma OpenedSettles(g0: Table, rank: Id -> nat, g: Table, id: Id, ids: seq<Id>)
    requires Ranked(g0, rank) && Thick(g0) && Progress(g0, rank, g)
    requires Composite(Lookup(g, id).kind)
    requires ids == Lookup(g0, id).kind.exprs || ids == Spine(g0, rank, id)
    requires Composite(Lookup(g0, id).kind)
    requires ids == Lookup(g0, id).kind.exprs ==> forall i :: 0 <= i < |ids| ==> Settled(g0, rank, g, ids[i])
    requires ids == Lookup(g, id).kind.exprs || Lookup(g, id).kind.exprs == Spine(g0, rank, id)
    ensures Opened(g, id) == Spine(g0, rank, id)
  {
    assert Stage(g0, rank, id, Lookup(g, id));
    SpineLength(g0, rank, id);
    var k0, k := Lookup(g0, id).kind, Lookup(g, id).kind;
    if |k.exprs| == 2 {
      var a, b := k0.exprs[0], k0.exprs[1];
      assert |Spine(g0, rank, id)| == 2 ==> k.exprs == k0.exprs;
      StageKeepsFoldable(g0, rank, g, k, a);
      StageKeepsFoldable(g0, rank, g, k, b);
    }
  }

  lemma RelistSettles(g0: Table, rank: Id -> nat, g: Table, id: Id, may: bool)
    requires Ranked(g0, rank) && Progress(g0, rank, g)
    requires id in g && Composite(g[id].kind)
    ensures var g' := Relist(g, id, Spine(g0, rank, id), may);
            Progress(g0, rank, g') && Settled(g0, rank, g', id) && Grown(g0, rank, g, g')
  {
    var ids := Spine(g0, rank, id);
    var g' := Relist(g, id, ids, may);
    assert Lookup(g, id) == g[id] && Stage(g0, rank, id, Lookup(g, id));
    RelistAt(g, id, ids, may, id);
    hide Ranked, Spine, Relist, WithExprs, Lookup;
    forall i ensures Stage(g0, rank, i, Lookup(g', i)) {
      assert Stage(g0, rank, i, Lookup(g, i));
      RelistAt(g, id, ids, may, i);
    }
    forall i | Settled(g0, rank, g, i) ensures Settled(g0, rank, g', i) {
      RelistAt(g, id, ids, may, i);
    }
  }

  lemma MarkProgress(g0: Table, rank: Id -> nat, g: Table, id: Id, n: Node)
    requires Ranked(g0, rank) && Progress(g0, rank, g)
    requires id in g && g[id].kind.Forward? && SameRule(g[id], n)
    ensures Progress(g0, rank, g[id := n]) && Grown(g0, rank, g, g[id := n])
  {
    hide Ranked, Spine;
    var g' := g[id := n];
    assert Stage(g0, rank, id, Lookup(g, id));
    forall i ensures Stage(g0, rank, i, Lookup(g', i)) {
      assert Stage(g0, rank, i, Lookup(g, i));
    }
  }

  /** A table reached from `g0` by streamlining some of its elements. */
  ghost predicate Reached(g0: Table, p: Plan, g: Table) {
    && Ranked(g0, p.rank) && Planned(g, p) && SameMeaning(g0, g)
    && Kin(g0, g) && (Thick(g0) ==> Progress(g0, p.rank, g))
  }

  /** Lists stay lists, and nothing else becomes one. */
  ghost predicate Kin(g0: Table, g: Table) {
    forall id :: Composite(Lookup(g, id).kind) == Composite(Lookup(g0, id).kind)
  }

  /** What one call adds to a reached table. */
  ghost predicate Onward(g0: Table, p: Plan, a: Table, b: Table)
    requires Ranked(g0, p.rank)
  {
    Pending(b) <= Pending(a) && (Thick(g0) ==> Grown(g0, p.rank, a, b))
  }

  lemma OnwardTransitive(g0: Table, p: Plan, a: Table, b: Table, c: Table)
    requires Ranked(g0, p.rank) && Onward(g0, p, a, b) && Onward(g0, p, b, c)
    ensures Onward(g0, p, a, c)
  {
    hide Ranked, Thick, Grown, Pending;
    if Thick(g0) { GrownTransitive(g0, p.rank, a, b, c); }
  }

  // ----- how far one call gets -----

  /** What an element leads to: its members, what it encloses, and the definition of a forward that
      is not marked. */
  function Inner(k: Kind): seq<Id> {
    if k.Forward? then (if !k.streamlined && k.inner.Some? then [k.inner.value] else []) else Children(k)
  }

  /** `seen` holds what its elements led to at `a`; by `b` its forwards are marked and its lists
      settled, and nothing outside it has changed. */
  ghost predicate Visited(g0: Table, p: Plan, a: Table, b: Table, seen: set<Id>)
    requires Ranked(g0, p.rank)
  {
    && (forall v :: v !in seen ==> Lookup(b, v) == Lookup(a, v))
    && (forall v, w :: v in seen && w in Inner(Lookup(a, v).kind) ==> w in seen)
    && seen !! Pending(b)
    && (Thick(g0) ==> forall v :: v in seen ==> Settled(g0, p.rank, b, v))
  }

  lemma VisitedThen(g0: Table, p: Plan, a: Table, b: Table, c: Table, first: set<Id>, second: set<Id>)
    requires Ranked(g0, p.rank) && Visited(g0, p, a, b, first) && Visited(g0, p, b, c, second) && Onward(g0, p, b, c)
    ensures Visited(g0, p, a, c, first + second)
  {
    hide Ranked, Thick, Settled, Pending, Lookup, Inner;
  }

  lemma VisitedNothing(g0: Table, p: Plan, a: Table)
    requires Ranked(g0, p.rank)
    ensures Visited(g0, p, a, a, {})
  {
    hide Ranked, Thick, Settled, Pending, Lookup, Inner;
  }

  /** An element that is no list, after what it leads to. */
  lemma VisitedAround(g0: Table, p: Plan, a: Table, b: Table, seen: set<Id>, id: Id)
    requires Reached(g0, p, a) && Visited(g0, p, a, b, seen) && !Composite(Lookup(a, id).kind) && !Lookup(a, id).kind.Forward?
    requires forall w :: w in Children(Lookup(a, id).kind) ==> w in seen
    requires Onward(g0, p, a, b)
    ensures Visited(g0, p, a, b, seen + {id})
  {
    NotAList(g0, p, a, id);
    NotPending(a, id);
    hide Ranked, Thick, Settled, Pending, Lookup, Reached;
  }

  /** A forward that is marked already. */
  lemma VisitedMarked(g0: Table, p: Plan, g: Table, id: Id)
    requires Reached(g0, p, g) && Lookup(g, id).kind.Forward? && Lookup(g, id).kind.streamlined
    ensures Visited(g0, p, g, g, {id})
  {
    NotAList(g0, p, g, id);
    NotPending(g, id);
    hide Ranked, Thick, Settled, Pending, Reached;
  }

  lemma NotPending(g: Table, id: Id)
    requires !Lookup(g, id).kind.Forward? || Lookup(g, id).kind.streamlined
    ensures id !in Pending(g)
  {
  }

  /** A forward that was marked before its definition was visited. */
  lemma VisitedForward(g0: Table, p: Plan, a: Table, b: Table, c: Table, seen: set<Id>, id: Id)
    requires Reached(g0, p, a) && id in a && Lookup(a, id).kind.Forward? && b == a[id := a[id].(kind := Forward(a[id].kind.inner, true))]
    requires Visited(g0, p, b, c, seen) && Onward(g0, p, b, c)
    requires a[id].kind.inner.Some? ==> a[id].kind.inner.value in seen
    ensures Visited(g0, p, a, c, seen + {id})
  {
    hide Ranked, Thick, Settled, Pending, Reached, Children;
    NotAList(g0, p, a, id);
    NotPending(b, id);
    assert forall v :: v != id ==> Lookup(b, v) == Lookup(a, v);
  }

  /** A list that was opened after its members were visited. */
  lemma VisitedList(g0: Table, p: Plan, a: Table, b: Table, c: Table, seen: set<Id>, id: Id)
    requires Ranked(g0, p.rank) && Visited(g0, p, a, b, seen) && Composite(Lookup(a, id).kind)
    requires forall w :: w in Lookup(a, id).kind.exprs ==> w in seen
    requires id in b && Composite(b[id].kind) && c == Relist(b, id, Opened(b, id), OpenedMay(b, id))
    requires Onward(g0, p, b, c) && (Thick(g0) ==> Settled(g0, p.rank, c, id))
    ensures Visited(g0, p, a, c, seen + {id})
  {
    hide Ranked, Thick, Settled, Pending, Relist, Opened, OpenedMay;
    forall v ensures v != id ==> Lookup(c, v) == Lookup(b, v) { RelistAt(b, id, Opened(b, id), OpenedMay(b, id), v); }
    RelistAt(b, id, Opened(b, id), OpenedMay(b, id), id);
    NotPending(c, id);
  }

  /** A path that leads from one element to the other. */
  ghost predicate Leads(g: Table, path: seq<Id>) {
    path != [] && forall i :: 0 <= i < |path| - 1 ==> path[i + 1] in Inner(Lookup(g, path[i]).kind)
  }

  lemma {:induction false} LedTo(g0: Table, p: Plan, a: Table, b: Table, seen: set<Id>, path: seq<Id>)
    requires Ranked(g0, p.rank) && Visited(g0, p, a, b, seen) && Leads(a, path) && path[0] in seen
    ensures path[|path| - 1] in seen
    decreases |path|
  {
    hide Ranked, Thick, Settled, Pending, Lookup, Inner;
    if |path| > 1 {
      assert path[0 + 1] in Inner(Lookup(a, path[0]).kind);
      var rest := path[1..];
      forall i | 0 <= i < |rest| - 1 ensures rest[i + 1] in Inner(Lookup(a, rest[i]).kind) {
        assert path[i + 1 + 1] in Inner(Lookup(a, path[i + 1]).kind);
      }
      LedTo(g0, p, a, b, seen, rest);
    }
  }

  lemma StartReached(g: Table, p: Plan)
    requires Planned(g, p)
    ensures Reached(g, p, g)
  {
    hide Ranked, NodePlanned, Meaning, Spine;
  }

  lemma OnwardSame(g0: Table, p: Plan, g: Table)
    requires Ranked(g0, p.rank)
    ensures Onward(g0, p, g, g)
  {
    hide Ranked, Settled;
  }

  lemma RankedFrom(g0: Table, p: Plan, g: Table)
    requires Reached(g0, p, g)
    ensures Ranked(g0, p.rank) && Planned(g, p) && Ranked(g, p.rank)
  {
    hide NodePlanned, Ranked, Kin, SameMeaning, Progress;
  }

  lemma ChildrenBelow(g0: Table, p: Plan, g: Table, id: Id)
    requires Reached(g0, p, g)
    ensures var ids := Children(Lookup(g, id).kind);
            Below(ids, p.rank, p.rank(id)) && (|ids| == 1 ==> p.rank(ids[0]) < p.rank(id))
  {
    RankedFrom(g0, p, g);
    hide Reached, Planned;
    assert id in g ==> RankedNode(g[id], p.rank, p.rank(id));
  }

  lemma MarkReached(g0: Table, p: Plan, g: Table, id: Id, n: Node)
    requires Reached(g0, p, g) && id in g
    requires g[id].kind.Forward? && !g[id].kind.streamlined && n == g[id].(kind := Forward(g[id].kind.inner, true))
    ensures Reached(g0, p, g[id := n]) && Onward(g0, p, g, g[id := n])
    ensures Pending(g[id := n]) < Pending(g)
  {
    RankedFrom(g0, p, g);
    hide Pending, Settled, SameMeaning, Ranked, Planned, Progress, Grown;
    MarkPending(g, id, n);
    MarkPlanned(g, p, id, n);
    MarkKeepsMeaning(g, id, n);
    MeaningTransitive(g0, g, g[id := n]);
    if Thick(g0) { MarkProgress(g0, p.rank, g, id, n); }
  }

  lemma MarkPending(g: Table, id: Id, n: Node)
    requires id in g && g[id].kind.Forward? && !g[id].kind.streamlined && n.kind.Forward? && n.kind.streamlined
    ensures Pending(g[id := n]) < Pending(g)
  {
    assert id in Pending(g) && id !in Pending(g[id := n]);
  }

  lemma MarkPlanned(g: Table, p: Plan, id: Id, n: Node)
    requires Planned(g, p) && id in g && g[id].kind.Forward? && SameRule(g[id], n)
    ensures Planned(g[id := n], p)
  {
    var g' := g[id := n];
    MarkNear(g, id, n);
    MarkRanked(g, p.rank, id, n);
    forall i ensures NodePlanned(g', p, i) {
      assert NodePlanned(g, p, i);
      if i != id {
        hide Near, NodePlanned;
        NearPlanned(g, g', p, i);
      } else {
        hide Near, HasStop, IsStop, SameLead, Marked;
      }
    }
    hide NodePlanned, Ranked;
  }

  lemma MarkRanked(g: Table, rank: Id -> nat, id: Id, n: Node)
    requires Ranked(g, rank) && id in g && n.kind.Forward?
    ensures Ranked(g[id := n], rank)
  {
    assert Children(n.kind) == [];
    hide Children;
  }

  lemma MarkNear(g: Table, id: Id, n: Node)
    requires id in g && g[id].kind.Forward? && SameRule(g[id], n)
    ensures Near(g, g[id := n])
  {
    var g' := g[id := n];
    forall i ensures NearNode(Lookup(g, i), Lookup(g', i)) {}
    hide NearNode, Copies;
    forall a, b | Copies(g, a, b) ensures Copies(g', a, b) { MarkCopies(g, id, n, a, b); }
  }

  lemma MarkCopies(g: Table, id: Id, n: Node, a: Id, b: Id)
    requires id in g && g[id].kind.Forward? && SameRule(g[id], n) && Copies(g, a, b)
    ensures Copies(g[id := n], a, b)
  {
    var g' := g[id := n];
    assert SameRule(Lookup(g', a), Lookup(g, a)) && SameRule(Lookup(g, b), Lookup(g', b));
    if a != b {
      SameRuleTransitive(Lookup(g', a), Lookup(g, a), Lookup(g, b));
      SameRuleTransitive(Lookup(g', a), Lookup(g, b), Lookup(g', b));
      assert Composite(Lookup(g', a).kind) == Composite(Lookup(g, a).kind);
    }
    hide SameRule, Lookup;
  }

  lemma SameRuleTransitive(a: Node, b: Node, c: Node)
    requires SameRule(a, b) && SameRule(b, c)
    ensures SameRule(a, c)
  {
  }

  lemma NotAList(g0: Table, p: Plan, g: Table, id: Id)
    requires Reached(g0, p, g) && !Composite(Lookup(g, id).kind)
    ensures Thick(g0) ==> forall h :: Settled(g0, p.rank, h, id)
  {
    hide Ranked, Meaning, NodePlanned, Spine;
    assert Thick(g0) ==> Stage(g0, p.rank, id, Lookup(g, id));
  }

  ghost predicate AllSettled(g0: Table, p: Plan, g: Table, ids: seq<Id>)
    requires Ranked(g0, p.rank)
  {
    Thick(g0) ==> forall j :: 0 <= j < |ids| ==> Settled(g0, p.rank, g, ids[j])
  }

  lemma MembersSettled(g0: Table, p: Plan, a: Table, b: Table, seen: set<Id>, ids: seq<Id>)
    requires Ranked(g0, p.rank) && Visited(g0, p, a, b, seen) && forall j :: 0 <= j < |ids| ==> ids[j] in seen
    ensures AllSettled(g0, p, b, ids)
  {
    hide Ranked, Thick, Settled, Pending, Lookup, Inner;
  }

  lemma StillAList(g0: Table, p: Plan, a: Table, b: Table, id: Id)
    requires Reached(g0, p, a) && Reached(g0, p, b) && Composite(Lookup(a, id).kind)
    ensures Planned(b, p) && id in b && Composite(b[id].kind)
  {
    hide Ranked, Meaning, Planned, Spine;
    assert Composite(Lookup(b, id).kind);
  }

  /** Opening a list after its members reaches a table in which the list is settled. */
  lemma ListSettled(g0: Table, p: Plan, a: Table, b: Table, c: Table, id: Id)
    requires Reached(g0, p, a) && Reached(g0, p, b) && Onward(g0, p, a, b)
    requires Composite(Lookup(a, id).kind) && id in b && Composite(b[id].kind)
    requires AllSettled(g0, p, b, Lookup(a, id).kind.exprs)
    requires Planned(c, p) && SameMeaning(b, c) && Pending(c) == Pending(b)
    requires c == Relist(b, id, Opened(b, id), OpenedMay(b, id))
    ensures Reached(g0, p, c) && Onward(g0, p, b, c)
    ensures Thick(g0) ==> Settled(g0, p.rank, c, id)
  {
    hide Ranked, Planned, Meaning, Pending, Spine, Opened, OpenedMay;
    MeaningTransitive(g0, b, c);
    RelistAt(b, id, Opened(b, id), OpenedMay(b, id), id);
    assert Kin(g0, c) by {
      assert forall i :: Composite(Lookup(c, i).kind) == Composite(Lookup(b, i).kind);
    }
    if Thick(g0) {
      assert Stage(g0, p.rank, id, Lookup(a, id)) && Stage(g0, p.rank, id, Lookup(b, id));
      if Lookup(a, id).kind.exprs == Spine(g0, p.rank, id) {
        assert Settled(g0, p.rank, a, id);
        assert Settled(g0, p.rank, b, id);
      }
      OpenedSettles(g0, p.rank, b, id, Lookup(a, id).kind.exprs);
      RelistSettles(g0, p.rank, b, id, OpenedMay(b, id));
    }
  }

  class Elements {
    var g: Table

    constructor (g: Table)
      ensures this.g == g
    {
      this.g := g;
    }

    /** Open the member between `zs` and `ys` if it is a plain nested list of the same class. */
    method Open(id: Id, zs: seq<Id>, x: Id, ys: seq<Id>, ghost p: Plan)
      requires Planned(g, p) && |zs| + |ys| > 0
      requires id in g && x != id && Composite(g[id].kind) && g[id].kind.exprs == zs + [x] + ys
      requires Foldable(g[id].kind, Lookup(g, x)) ==> SafeSite(g, id, zs, x, ys) && Granted(g, p, id, zs, x)
      modifies this
      ensures Planned(g, p) && SameMeaning(old(g), g) && Pending(g) == old(Pending(g))
      ensures var k := old(g)[id].kind;
              g == Relist(old(g), id, zs + Part(old(g), k, x) + ys, old(g)[id].mayIndexError || PartMay(old(g), k, x))
    {
      var n, other := g[id], Lookup(g, x);
      RelistSame(g, id);
      if Foldable(n.kind, other) {
        SpliceKeepsMeaning(g, id, zs, x, ys);
        OpenedPlanned(g, p, id, zs, x, ys);
        hide SameMeaning, Pending, Planned, SafeSite, Granted;
        var m := n.(kind := WithExprs(n.kind, zs + other.kind.exprs + ys),
                    mayIndexError := n.mayIndexError || other.mayIndexError);
        SamePending(g, id, m);
        g := g[id := m];
      }
    }

    /** A list of two is opened in first place, then in last place. */
    method Flatten(id: Id, ghost p: Plan)
      requires Planned(g, p) && id in g && Composite(g[id].kind)
      modifies this
      ensures Planned(g, p) && SameMeaning(old(g), g) && Pending(g) == old(Pending(g))
      ensures g == Relist(old(g), id, Opened(old(g), id), OpenedMay(old(g), id))
    {
      if |g[id].kind.exprs| == 2 {
        FlattenPair(id, p);
      } else {
        RelistSame(g, id);
        hide Relist, Planned;
      }
    }

    method FlattenPair(id: Id, ghost p: Plan)
      requires Planned(g, p) && id in g && Composite(g[id].kind) && |g[id].kind.exprs| == 2
      modifies this
      ensures Planned(g, p) && SameMeaning(old(g), g) && Pending(g) == old(Pending(g))
      ensures g == Relist(old(g), id, Opened(old(g), id), OpenedMay(old(g), id))
    {
      ghost var g0 := g;
      hide Foldable, Lookup, SameMeaning, Pending, Planned, Relist, Part, PartMay, Opened, OpenedMay;
      OpenFirst(id, p);
      ghost var g1 := g;
      OpenLast(id, p, g0);
      MeaningTransitive(g0, g1, g);
    }

    method OpenFirst(id: Id, ghost p: Plan)
      requires Planned(g, p) && id in g && Composite(g[id].kind) && |g[id].kind.exprs| == 2
      modifies this
      ensures Planned(g, p) && SameMeaning(old(g), g) && Pending(g) == old(Pending(g))
      ensures g == FirstDone(old(g), id)
    {
      PairReady(g, p, id);
      var first, last := g[id].kind.exprs[0], g[id].kind.exprs[1];
      assert g[id].kind.exprs == [] + [first] + [last];
      hide Foldable, Lookup, SameMeaning, Pending, Planned, Relist, Part, PartMay, SafeSite, Granted;
      Open(id, [], first, [last], p);
    }

    method OpenLast(id: Id, ghost p: Plan, ghost g0: Table)
      requires Planned(g0, p) && Planned(g, p) && id in g0 && Composite(g0[id].kind) && |g0[id].kind.exprs| == 2
      requires g == FirstDone(g0, id)
      modifies this
      ensures Planned(g, p) && SameMeaning(old(g), g) && Pending(g) == old(Pending(g))
      ensures g == Relist(g0, id, Opened(g0, id), OpenedMay(g0, id))
    {
      ghost var g1 := g;
      Halfway(g0, g1, p, id);
      hide Foldable, Lookup, SameMeaning, Pending, Planned, Relist, FirstDone, Part, PartMay, Opened, OpenedMay, SafeSite, Granted;
      var now := g[id].kind.exprs;
      Open(id, now[..|now| - 1], now[|now| - 1], [], p);
      LastOpened(g0, g1, g, id);
    }

    /** Streamline an element and everything below it; a forward only the first time. */
    method StreamlineElement(id: Id, ghost g0: Table, ghost p: Plan) returns (ghost seen: set<Id>)
      requires Reached(g0, p, g)
      modifies this
      ensures Reached(g0, p, g) && Onward(g0, p, old(g), g) && Pending(g) <= old(Pending(g))
      ensures Visited(g0, p, old(g), g, seen) && id in seen
      decreases Pending(g), p.rank(id), 2
    {
      ghost var before := g;
      var n := Lookup(g, id);
      RankedFrom(g0, p, g);
      OnwardSame(g0, p, g);
      VisitedNothing(g0, p, g);
      ChildrenBelow(g0, p, g, id);
      assert n.kind.Forward? ==> id in g;
      if n.kind.Forward? && n.kind.streamlined { VisitedMarked(g0, p, g, id); }
      seen := {};
      hide Reached, Grown, Thick, Settled, Ranked, Pending, Lookup, Onward, Visited;
      match n.kind {
        case Leaf(_) =>
        case ErrorStop =>
        case And(exprs) => seen := StreamlineList(id, exprs, g0, p);
        case Or(exprs) => seen := StreamlineList(id, exprs, g0, p);
        case MatchFirst(exprs) => seen := StreamlineList(id, exprs, g0, p);
        case ZeroOrMore(x) => seen := StreamlineElement(x, g0, p);
        case OneOrMore(x) => seen := StreamlineElement(x, g0, p);
        case Optional(x, _) => seen := StreamlineElement(x, g0, p);
        case FollowedBy(x) => seen := StreamlineElement(x, g0, p);
        case NotAny(x) => seen := StreamlineElement(x, g0, p);
        case Wrapper(inner) =>
          if inner.Some? { seen := StreamlineElement(inner.value, g0, p); }
        case Forward(inner, streamlined) =>
          if !streamlined { seen := StreamlineForward(id, g0, p); } else { seen := {id}; }
      }
      if !Composite(n.kind) && !n.kind.Forward? {
        VisitedAround(g0, p, before, g, seen, id);
        seen := seen + {id};
      }
    }

    /** Mark the forward, then streamline its definition. */
    method StreamlineForward(id: Id, ghost g0: Table, ghost p: Plan) returns (ghost seen: set<Id>)
      requires Reached(g0, p, g) && id in g && g[id].kind.Forward? && !g[id].kind.streamlined
      modifies this
      ensures Reached(g0, p, g) && Onward(g0, p, old(g), g) && Pending(g) <= old(Pending(g))
      ensures Visited(g0, p, old(g), g, seen) && id in seen
      decreases Pending(g), p.rank(id), 1
    {
      ghost var before := g;
      var n, inner := g[id], g[id].kind.inner;
      MarkReached(g0, p, g, id, n.(kind := Forward(inner, true)));
      g := g[id := n.(kind := Forward(inner, true))];
      ghost var marked := g;
      RankedFrom(g0, p, g);
      VisitedNothing(g0, p, g);
      OnwardSame(g0, p, g);
      hide Reached, Grown, Thick, Settled, Ranked, Pending, Onward, Visited;
      seen := {};
      if inner.Some? {
        seen := StreamlineElement(inner.value, g0, p);
      }
      OnwardTransitive(g0, p, before, marked, g);
      VisitedForward(g0, p, before, marked, g, seen, id);
      seen := seen + {id};
    }

    /** The members first, as they were listed at the start; then the list itself. */
    method StreamlineList(id: Id, exprs: seq<Id>, ghost g0: Table, ghost p: Plan) returns (ghost seen: set<Id>)
      requires Reached(g0, p, g)
      requires Composite(Lookup(g, id).kind) && exprs == Lookup(g, id).kind.exprs && Below(exprs, p.rank, p.rank(id))
      modifies this
      ensures Reached(g0, p, g) && Onward(g0, p, old(g), g) && Pending(g) <= old(Pending(g))
      ensures Visited(g0, p, old(g), g, seen) && id in seen
      decreases Pending(g), p.rank(id), 1
    {
      ghost var before := g;
      RankedFrom(g0, p, g);
      hide Reached, Thick, Settled, Ranked, Pending, Lookup, Onward, AllSettled, SameMeaning, Planned, Opened, OpenedMay, Relist, Below, Visited;
      seen := StreamlineMembers(exprs, p.rank(id), g0, p);
      ghost var settled := g;
      StillAList(g0, p, before, settled, id);
      Flatten(id, p);
      ListSettled(g0, p, before, settled, g, id);
      VisitedList(g0, p, before, settled, g, seen, id);
      OnwardTransitive(g0, p, before, settled, g);
      seen := seen + {id};
    }

    method StreamlineMembers(exprs: seq<Id>, ghost r: nat, ghost g0: Table, ghost p: Plan) returns (ghost seen: set<Id>)
      requires Reached(g0, p, g) && Below(exprs, p.rank, r)
      modifies this
      ensures Reached(g0, p, g) && Onward(g0, p, old(g), g) && Pending(g) <= old(Pending(g))
      ensures AllSettled(g0, p, g, exprs)
      ensures Visited(g0, p, old(g), g, seen) && forall x :: x in exprs ==> x in seen
      decreases Pending(g), r, 0
    {
      ghost var before := g;
      RankedFrom(g0, p, g);
      OnwardSame(g0, p, g);
      VisitedNothing(g0, p, g);
      seen := {};
      hide Reached, Thick, Settled, Ranked, Pending, Onward, AllSettled, Visited;
      for i := 0 to |exprs|
        invariant Reached(g0, p, g) && Onward(g0, p, before, g) && Pending(g) <= Pending(before)
        invariant Visited(g0, p, before, g, seen) && forall j :: 0 <= j < i ==> exprs[j] in seen
      {
        ghost var now := g;
        ghost var more := StreamlineElement(exprs[i], g0, p);
        OnwardTransitive(g0, p, before, now, g);
        VisitedThen(g0, p, before, now, g, seen, more);
        seen := seen + more;
      }
      MembersSettled(g0, p, before, g, seen, exprs);
    }

    /** Streamlining changes no parse of any element on any text. Every forward that the element leads
        to is marked afterwards, and, when all lists have at least two members, every list that it
        leads to is left with its spine. */
    method Streamline(id: Id, ghost p: Plan)
      requires Planned(g, p)
      modifies this
      ensures Planned(g, p) && SameMeaning(old(g), g)
      ensures Thick(old(g)) ==> Settled(old(g), p.rank, g, id)
      ensures forall path :: Leads(old(g), path) && path[0] == id ==>
        && path[|path| - 1] !in Pending(g)
        && (Thick(old(g)) ==> Settled(old(g), p.rank, g, path[|path| - 1]))
    {
      ghost var g0 := g;
      StartReached(g, p);
      ghost var seen := StreamlineElement(id, g0, p);
      forall path | Leads(g0, path) && path[0] == id ensures path[|path| - 1] in seen {
        LedTo(g0, p, g0, g, seen, path);
      }
      assert Leads(g0, [id]);
    }
  }
}
