/** Which lists of a grammar can be opened, stated before anything is opened, and why that stays
    true while lists are being opened. */
module Plans {
  import opened Results
  import opened Grammar
  import opened Meanings
  import opened Splice
  import opened Mirrors
  import opened Leading
  import opened Streamline

  // ----- the shape of a grammar -----

  function Children(k: Kind): seq<Id> {
    match k
    case Leaf(_) => []
    case ErrorStop => []
    case And(exprs) => exprs
    case Or(exprs) => exprs
    case MatchFirst(exprs) => exprs
    case ZeroOrMore(x) => [x]
    case OneOrMore(x) => [x]
    case Optional(x, _) => [x]
    case FollowedBy(x) => [x]
    case NotAny(x) => [x]
    case Wrapper(inner) => if inner.Some? then [inner.value] else []
    case Forward(_, _) => []
  }

  /** Every cycle goes through a forward: other elements have children of lower rank. */
  ghost predicate Ranked(g: Table, rank: Id -> nat) {
    forall id :: id in g ==> RankedNode(g[id], rank, rank(id))
  }

  ghost predicate RankedNode(n: Node, rank: Id -> nat, r: nat) {
    Below(Children(n.kind), rank, r)
  }

  ghost predicate Below(ids: seq<Id>, rank: Id -> nat, r: nat) {
    forall i :: 0 <= i < |ids| ==> rank(ids[i]) < r
  }

  lemma RankedSplice(g: Table, rank: Id -> nat, id: Id, zs: seq<Id>, x: Id, ys: seq<Id>)
    requires Ranked(g, rank) && Site(g, id, zs, x, ys)
    ensures Ranked(SpliceAt(g, id, zs, x, ys), rank)
  {
    var n, m := g[id], Lookup(g, x);
    assert RankedNode(n, rank, rank(id));
    assert Children(n.kind)[|zs|] == x;
    assert m.kind.exprs != [] ==> x in g && RankedNode(m, rank, rank(x));
    forall i | 0 <= i < |zs + m.kind.exprs + ys|
      ensures rank((zs + m.kind.exprs + ys)[i]) < rank(id)
    {
      if i < |zs| {
        assert Children(n.kind)[i] == zs[i];
      } else if i < |zs| + |m.kind.exprs| {
        assert Children(m.kind)[i - |zs|] == m.kind.exprs[i - |zs|];
      } else {
        assert Children(n.kind)[i - |m.kind.exprs| + 1] == ys[i - |zs| - |m.kind.exprs|];
      }
    }
  }

  // ----- which lists can be opened -----

  /** Ranks for the recursion, and marks on the nested lists that will be opened: `full` ones have
      members, `calm` ones (in first place) no error stops, `led` ones (elsewhere) skip nothing
      that their first member would not skip. */
  datatype Plan = Plan(rank: Id -> nat, full: set<Id>, calm: set<Id>, led: set<Id>)

  /** Members that may be opened after all are marked too. Only lists of two are opened. */
  ghost predicate Marked(g: Table, n: Node, marks: set<Id>)
    requires Composite(n.kind)
  {
    var ids := n.kind.exprs;
    |ids| <= 2 ==> forall i :: 0 <= i < |ids| && Foldable(n.kind, Lookup(g, ids[i])) ==> ids[i] in marks
  }

  ghost predicate Full(g: Table, p: Plan, n: Node) {
    Composite(n.kind) && n.kind.exprs != [] && n.post.None? && Marked(g, n, p.full)
  }

  ghost predicate Calm(g: Table, p: Plan, n: Node) {
    Composite(n.kind) && !HasStop(g, n.kind.exprs) && Marked(g, n, p.calm)
  }

  ghost predicate Led(g: Table, p: Plan, n: Node) {
    && Composite(n.kind) && n.kind.exprs != []
    && if n.kind.And? then
         var y := n.kind.exprs[0];
         && !IsStop(g, y) && SameLead(g, n, Lookup(g, y))
         && (|n.kind.exprs| <= 2 && Foldable(n.kind, Lookup(g, y)) ==> y in p.led)
       else Idle(n) && Marked(g, n, p.led)
  }

  predicate Converts(n: Node) {
    n.kind.MatchFirst? || n.mayIndexError || n.debug
  }

  /** A list of two whose plain members are marked for their places. */
  ghost predicate PairOk(g: Table, p: Plan, n: Node) {
    Composite(n.kind) && |n.kind.exprs| == 2 ==>
      var a, b := n.kind.exprs[0], n.kind.exprs[1];
      && (Foldable(n.kind, Lookup(g, a)) ==>
            Converts(n) && a in p.full && if n.kind.And? then a in p.calm || IsStop(g, b) else a in p.led)
      && (Foldable(n.kind, Lookup(g, b)) ==> Converts(n) && b in p.full && b in p.led)
  }

  ghost predicate NodePlanned(g: Table, p: Plan, id: Id) {
    var n := Lookup(g, id);
    && (id in p.full ==> Full(g, p, n)) && (id in p.calm ==> Calm(g, p, n)) && (id in p.led ==> Led(g, p, n))
    && PairOk(g, p, n)
  }

  /** Cycles go through forwards, and the marks are right. Nothing is asked of elements that are not
      lists of two or marked. */
  ghost predicate Planned(g: Table, p: Plan) {
    Ranked(g, p.rank) && forall id :: NodePlanned(g, p, id)
  }

  // ----- plans outlast a step -----

  /** What plans read of a definition besides its members. */
  ghost predicate NearNode(n: Node, m: Node) {
    && SameTop(n.kind, m.kind)
    && n.action == m.action && n.named == m.named && n.debug == m.debug && n.post == m.post
    && Ignored(n) == Ignored(m) && Blanks(n) == Blanks(m)
  }

  predicate SameTop(k: Kind, l: Kind) {
    (Composite(k) && SameClass(k, l)) || (!Composite(k) && !Composite(l) && k.ErrorStop? == l.ErrorStop?)
  }

  ghost predicate Near(g: Table, g': Table) {
    && (forall id :: NearNode(Lookup(g, id), Lookup(g', id)))
    && forall a, b :: Copies(g, a, b) ==> Copies(g', a, b)
  }

  lemma NearFoldable(g: Table, g': Table, k: Kind, id: Id)
    requires Near(g, g')
    ensures Foldable(k, Lookup(g, id)) == Foldable(k, Lookup(g', id))
    ensures IsStop(g, id) == IsStop(g', id)
  {
    assert NearNode(Lookup(g, id), Lookup(g', id));
  }

  lemma NearStops(g: Table, g': Table, ids: seq<Id>)
    requires Near(g, g')
    ensures HasStop(g, ids) == HasStop(g', ids)
  {
    hide Near;
    forall id ensures IsStop(g, id) == IsStop(g', id) { NearFoldable(g, g', ErrorStop, id); }
  }

  lemma NearLead(g: Table, g': Table, n: Node, id: Id)
    requires Near(g, g') && SameLead(g, n, Lookup(g, id))
    ensures SameLead(g', n, Lookup(g', id))
  {
    var m := Lookup(g, id);
    assert NearNode(m, Lookup(g', id));
    hide Ignored, Blanks, Copies;
  }

  lemma NearMarked(g: Table, g': Table, n: Node, marks: set<Id>)
    requires Near(g, g') && Composite(n.kind) && Marked(g, n, marks)
    ensures Marked(g', n, marks)
  {
    hide Near, Foldable;
    forall i | 0 <= i < |n.kind.exprs| && Foldable(n.kind, Lookup(g', n.kind.exprs[i]))
      ensures |n.kind.exprs| <= 2 ==> n.kind.exprs[i] in marks
    {
      NearFoldable(g, g', n.kind, n.kind.exprs[i]);
    }
  }

  lemma NearPlanned(g: Table, g': Table, p: Plan, id: Id)
    requires Near(g, g') && NodePlanned(g, p, id) && Lookup(g', id) == Lookup(g, id)
    ensures NodePlanned(g', p, id)
  {
    var n := Lookup(g, id);
    if Composite(n.kind) {
      NearStops(g, g', n.kind.exprs);
      if Marked(g, n, p.full) { NearMarked(g, g', n, p.full); }
      if Marked(g, n, p.calm) { NearMarked(g, g', n, p.calm); }
      if Marked(g, n, p.led) { NearMarked(g, g', n, p.led); }
      forall i | 0 <= i < |n.kind.exprs| ensures Foldable(n.kind, Lookup(g, n.kind.exprs[i])) == Foldable(n.kind, Lookup(g', n.kind.exprs[i])) &&
        IsStop(g, n.kind.exprs[i]) == IsStop(g', n.kind.exprs[i])
      {
        NearFoldable(g, g', n.kind, n.kind.exprs[i]);
      }
      if n.kind.exprs != [] && SameLead(g, n, Lookup(g, n.kind.exprs[0])) { NearLead(g, g', n, n.kind.exprs[0]); }
    }
    hide Near, Foldable, Marked, SameLead, HasStop, IsStop, Idle, Lookup;
  }

  lemma SpliceNear(g: Table, id: Id, zs: seq<Id>, x: Id, ys: seq<Id>)
    requires Site(g, id, zs, x, ys)
    ensures Near(g, SpliceAt(g, id, zs, x, ys))
  {
    var g' := SpliceAt(g, id, zs, x, ys);
    forall i ensures NearNode(Lookup(g, i), Lookup(g', i)) {}
    forall a, b | Copies(g, a, b) ensures Copies(g', a, b) {}
  }

  /** What the plan says about a member that is opened now. */
  ghost predicate Granted(g: Table, p: Plan, id: Id, zs: seq<Id>, x: Id) {
    var n := Lookup(g, id);
    && x in p.full && (id in p.calm ==> x in p.calm) && (id in p.led && (zs == [] || !n.kind.And?) ==> x in p.led)
  }

  lemma OpenedMarked(g: Table, id: Id, zs: seq<Id>, x: Id, ys: seq<Id>, marks: set<Id>)
    requires Site(g, id, zs, x, ys) && Lookup(g, x).kind.exprs != [] && |zs| + |ys| > 0
    requires Marked(g, g[id], marks) && Marked(g, Lookup(g, x), marks)
    ensures var g' := SpliceAt(g, id, zs, x, ys); Marked(g', g'[id], marks)
  {
    var g', xs := SpliceAt(g, id, zs, x, ys), Lookup(g, x).kind.exprs;
    var ids, old_ := zs + xs + ys, g[id].kind.exprs;
    SpliceNear(g, id, zs, x, ys);
    hide Near;
    if |ids| <= 2 {
      assert |xs| == 1 && |zs| + |ys| == 1;
      forall i | 0 <= i < |ids| && Foldable(g'[id].kind, Lookup(g', ids[i])) ensures ids[i] in marks {
        NearFoldable(g, g', g'[id].kind, ids[i]);
        if i == |zs| { assert ids[i] == xs[0]; } else { assert ids[i] == old_[i]; }
      }
    }
  }

  lemma OpenedCalm(g: Table, p: Plan, id: Id, zs: seq<Id>, x: Id, ys: seq<Id>)
    requires Site(g, id, zs, x, ys) && Lookup(g, x).kind.exprs != [] && |zs| + |ys| > 0
    requires Calm(g, p, g[id]) && Calm(g, p, Lookup(g, x))
    ensures var g' := SpliceAt(g, id, zs, x, ys); Calm(g', p, g'[id])
  {
    var g', xs, n := SpliceAt(g, id, zs, x, ys), Lookup(g, x).kind.exprs, g[id];
    OpenedMarked(g, id, zs, x, ys, p.calm);
    SpliceNear(g, id, zs, x, ys);
    NearStops(g, g', zs + xs + ys);
    StopParts(g, zs, xs, ys);
    StopParts(g, zs, [x], ys);
    hide Near, Marked, IsStop, HasStop;
  }

  lemma StopParts(g: Table, zs: seq<Id>, xs: seq<Id>, ys: seq<Id>)
    ensures HasStop(g, zs + xs + ys) <==> HasStop(g, zs) || HasStop(g, xs) || HasStop(g, ys)
  {
    StopAppend(g, zs + xs, ys);
    StopAppend(g, zs, xs);
    hide HasStop;
  }

  lemma OpenedLed(g: Table, p: Plan, id: Id, zs: seq<Id>, x: Id, ys: seq<Id>)
    requires Site(g, id, zs, x, ys) && Lookup(g, x).kind.exprs != [] && |zs| + |ys| > 0
    requires Led(g, p, g[id]) && (zs == [] || !g[id].kind.And? ==> Led(g, p, Lookup(g, x)))
    ensures var g' := SpliceAt(g, id, zs, x, ys); Led(g', p, g'[id])
  {
    var g', xs, n := SpliceAt(g, id, zs, x, ys), Lookup(g, x).kind.exprs, g[id];
    SpliceNear(g, id, zs, x, ys);
    assert Ignored(g'[id]) == Ignored(n) && Blanks(g'[id]) == Blanks(n);
    if n.kind.And? {
      var y := if zs == [] then xs[0] else zs[0];
      assert g'[id].kind.exprs[0] == y;
      if zs == [] {
        assert n.kind.exprs[0] == x;
        SameLeadTransitive(g, n, Lookup(g, x), Lookup(g, y));
      } else {
        assert n.kind.exprs[0] == y;
      }
      NearLead(g, g', n, y);
      NearFoldable(g, g', g'[id].kind, y);
      SameLeadOf(g', n, g'[id], Lookup(g', y));
      hide Near, SameLead, SpliceAt, IsStop, Ignored, Blanks, Foldable, Lookup, Marked;
    } else {
      OpenedMarked(g, id, zs, x, ys, p.led);
      hide Near, SameLead, Marked, Ignored, Blanks, Foldable, Lookup;
    }
  }

  lemma SameLeadOf(g: Table, n: Node, n': Node, m: Node)
    requires SameLead(g, n, m) && Ignored(n) == Ignored(n') && Blanks(n) == Blanks(n')
    ensures SameLead(g, n', m)
  {
    hide Ignored, Blanks, Copies;
  }

  lemma OpenedPair(g: Table, p: Plan, id: Id, zs: seq<Id>, x: Id, ys: seq<Id>)
    requires Site(g, id, zs, x, ys) && Lookup(g, x).kind.exprs != [] && |zs| + |ys| > 0
    requires NodePlanned(g, p, id) && NodePlanned(g, p, x)
    ensures var g' := SpliceAt(g, id, zs, x, ys); PairOk(g', p, g'[id])
  {
    var g', m, n := SpliceAt(g, id, zs, x, ys), Lookup(g, x), g[id];
    var xs := m.kind.exprs;
    var ids := zs + xs + ys;
    SpliceNear(g, id, zs, x, ys);
    if |ids| == 2 {
      assert |xs| == 1 && |n.kind.exprs| == 2;
      var a, b := ids[0], ids[1];
      NearFoldable(g, g', n.kind, a);
      NearFoldable(g, g', n.kind, b);
      NearFoldable(g, g', g'[id].kind, a);
      NearFoldable(g, g', g'[id].kind, b);
      FoldableAlike(n.kind, g'[id].kind, Lookup(g, a));
      FoldableAlike(n.kind, g'[id].kind, Lookup(g, b));
      FoldableAlike(n.kind, m.kind, Lookup(g, xs[0]));
      assert zs == [] ==> n.kind.exprs[0] == x && n.kind.exprs[1] == b && a == xs[0];
      assert zs != [] ==> n.kind.exprs[0] == a && n.kind.exprs[1] == x && b == xs[0] && !IsStop(g, x);
      assert Converts(n) ==> Converts(g'[id]);
      assert g'[id].kind.exprs == ids && SameClass(n.kind, g'[id].kind) && SameClass(n.kind, m.kind) && Foldable(n.kind, m);
      hide Near, Foldable, SameLead, Idle, HasStop, IsStop, SpliceAt, Converts, Lookup;
    }
  }

  lemma FoldableAlike(k: Kind, l: Kind, n: Node)
    requires SameClass(k, l)
    ensures Foldable(k, n) == Foldable(l, n)
  {
  }

  /** Opening a granted member keeps the plan. */
  lemma OpenedPlanned(g: Table, p: Plan, id: Id, zs: seq<Id>, x: Id, ys: seq<Id>)
    requires Planned(g, p) && Site(g, id, zs, x, ys) && |zs| + |ys| > 0 && Granted(g, p, id, zs, x)
    ensures Planned(SpliceAt(g, id, zs, x, ys), p)
  {
    var g' := SpliceAt(g, id, zs, x, ys);
    assert NodePlanned(g, p, id) && NodePlanned(g, p, x);
    RankedSplice(g, p.rank, id, zs, x, ys);
    SpliceNear(g, id, zs, x, ys);
    forall i ensures NodePlanned(g', p, i) {
      assert NodePlanned(g, p, i);
      if i != id {
        hide Near, PairOk, Full, Calm, Led, NodePlanned;
        NearPlanned(g, g', p, i);
      } else {
        hide Near, PairOk, Marked, SameLead, HasStop, Idle;
        OpenedPair(g, p, id, zs, x, ys);
        if id in p.full { OpenedMarked(g, id, zs, x, ys, p.full); }
        if id in p.calm { OpenedCalm(g, p, id, zs, x, ys); }
        if id in p.led { OpenedLed(g, p, id, zs, x, ys); }
      }
    }
    hide SpliceAt, NodePlanned;
  }

  // ----- grammars in which everything can be opened -----

  /** Nothing is skipped and there are no error stops; lists have members and keep the flag their
      constructors set. */
  predicate QuietNode(n: Node) {
    && Idle(n) && !n.kind.ErrorStop?
    && (Composite(n.kind) ==> n.mayIndexError && n.post.None? && n.kind.exprs != [])
  }

  predicate Quiet(g: Table) {
    forall id :: id in g ==> QuietNode(g[id])
  }

  function AllLists(g: Table): set<Id> {
    set id | id in g && Composite(g[id].kind)
  }

  /** In a quiet grammar all lists may be marked for all places. */
  lemma QuietPlanned(g: Table, rank: Id -> nat)
    requires Ranked(g, rank) && Quiet(g)
    ensures Planned(g, Plan(rank, AllLists(g), AllLists(g), AllLists(g)))
  {
    var p := Plan(rank, AllLists(g), AllLists(g), AllLists(g));
    forall id ensures NodePlanned(g, p, id) { QuietNodePlanned(g, rank, id); }
    hide NodePlanned, Ranked;
  }

  lemma QuietNodePlanned(g: Table, rank: Id -> nat, id: Id)
    requires Quiet(g)
    ensures NodePlanned(g, Plan(rank, AllLists(g), AllLists(g), AllLists(g)), id)
  {
    assert QuietNode(Lookup(g, id));
    assert forall i :: QuietNode(Lookup(g, i));
    hide QuietNode, Quiet;
    var n := Lookup(g, id);
    QuietFacts(n);
    assert forall i :: Composite(Lookup(g, i).kind) ==> i in AllLists(g);
    if Composite(n.kind) {
      forall i | 0 <= i < |n.kind.exprs| ensures !IsStop(g, n.kind.exprs[i]) && Idle(Lookup(g, n.kind.exprs[i])) {
        QuietFacts(Lookup(g, n.kind.exprs[i]));
      }
    }
  }

  lemma QuietFacts(n: Node)
    requires QuietNode(n)
    ensures Idle(n) && !n.kind.ErrorStop?
    ensures Composite(n.kind) ==> n.mayIndexError && n.post.None? && n.kind.exprs != []
  {
  }
}
