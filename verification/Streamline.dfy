/** Opening a nested list in place: when it keeps the meaning of every element of a grammar. */
module Streamline {
  import opened Results
  import opened Grammar
  import opened Meanings
  import opened Splice
  import opened Mirrors
  import opened Leading

  predicate SameClass(k: Kind, l: Kind) {
    (k.And? && l.And?) || (k.Or? && l.Or?) || (k.MatchFirst? && l.MatchFirst?)
  }

  // ----- one list on given answers -----

  function FinishAll(g: Table, s: string, e: Env, start: nat, r: Option<Outcome>): Option<Outcome> {
    match r
    case None => None
    case Some(o) => Some(Finish(g, s, e, start, o))
  }

  lemma {:induction false} AndValue(g: Table, s: string, E: Oracle, e: Env, start: nat, i: nat, loc: nat, tokens: Tokens, stop: bool)
    requires Lookup(g, e.id).kind.And? && i <= |Exprs(g, e.id)|
    ensures Value(g, s, E, AndNext(g, s, e, start, i, loc, tokens, stop)) ==
            FinishAll(g, s, e, start, AndRun(World(g, s, E, e.acts), Exprs(g, e.id)[i..], loc, tokens, stop))
    decreases |Exprs(g, e.id)| - i
  {
    hide Value, Finish;
    var exprs := Exprs(g, e.id);
    if i == |exprs| {
      ValueOfReturn(g, s, E, Finish(g, s, e, start, Matched(loc, tokens)));
    } else {
      assert exprs[i..][1..] == exprs[i + 1..];
      if IsStop(g, exprs[i]) {
        AndValue(g, s, E, e, start, i + 1, loc, tokens, true);
      } else {
        var c, k := Call(exprs[i], loc, e.acts, true), InAnd(e, start, i, tokens, stop);
        ValueOfAsk(g, s, E, c, k);
        if E(c).Some? {
          var o := E(c).value;
          if o.Matched? {
            AndValue(g, s, E, e, start, i + 1, o.loc, tokens + o.tokens, stop);
          } else {
            ValueOfReturn(g, s, E, Finish(g, s, e, start, if stop then Raised(Stopped(s, o.exc)) else o));
          }
        }
      }
    }
  }

  lemma {:induction false} FirstValue(g: Table, s: string, E: Oracle, e: Env, start: nat, i: nat, at: Option<nat>)
    requires Lookup(g, e.id).kind.MatchFirst? && i <= |Exprs(g, e.id)|
    ensures Value(g, s, E, FirstNext(g, s, e, start, i, at)) ==
            FinishAll(g, s, e, start, SweepOutcome(start, FirstSweep(E, s, Exprs(g, e.id)[i..], start, at, e.acts)))
    decreases |Exprs(g, e.id)| - i
  {
    hide Value, Finish;
    var exprs := Exprs(g, e.id);
    if i == |exprs| {
      ValueOfReturn(g, s, E, Finish(g, s, e, start, NoneMatched(start, at)));
    } else {
      var c, k := Call(exprs[i], start, e.acts, true), InFirst(e, start, i, at);
      ValueOfAsk(g, s, E, c, k);
      assert exprs[i..][1..] == exprs[i + 1..];
      if E(c).Some? {
        var o := E(c).value;
        if o.Matched? || FailureAt(s, o.exc).None? {
          ValueOfReturn(g, s, E, Finish(g, s, e, start, o));
        } else {
          FirstValue(g, s, E, e, start, i + 1, Further(at, FailureAt(s, o.exc).value));
        }
      }
    }
  }

  lemma {:induction false} OrValue(g: Table, s: string, E: Oracle, e: Env, start: nat, i: nat, t: Tally)
    requires Lookup(g, e.id).kind.Or? && i <= |Exprs(g, e.id)|
    ensures Value(g, s, E, OrNext(g, s, e, start, i, t.furthest, t.best)) ==
            FinishAll(g, s, e, start,
              match Trials(E, s, Exprs(g, e.id)[i..], start, t)
              case None => None
              case Some(u) => Chosen(E, start, e.acts, u))
    decreases |Exprs(g, e.id)| - i
  {
    hide Value, Finish;
    var exprs := Exprs(g, e.id);
    if i == |exprs| {
      if t.best.None? {
        ValueOfReturn(g, s, E, Finish(g, s, e, start, NoneMatched(start, t.furthest)));
      } else {
        var c := Call(t.best.value.1, start, e.acts, true);
        ValueOfAsk(g, s, E, c, InTail(e, start));
        if E(c).Some? { ValueOfReturn(g, s, E, Finish(g, s, e, start, E(c).value)); }
      }
    } else {
      var c, k := Call(exprs[i], start, false, true), InOr(e, start, i, t.furthest, t.best);
      ValueOfAsk(g, s, E, c, k);
      assert exprs[i..][1..] == exprs[i + 1..];
      if E(c).Some? { OrValue(g, s, E, e, start, i + 1, Tallied(s, start, exprs[i], E(c).value, t)); }
    }
  }

  /** What the rule of a list's class makes of its members' outcomes. */
  function Run(k: Kind, w: World, ids: seq<Id>, start: nat): Option<Outcome>
    requires Composite(k)
  {
    match k
    case And(_) => AndList(w, ids, start)
    case Or(_) => OrRun(w.E, w.s, ids, start, w.acts)
    case MatchFirst(_) => FirstRun(w.E, w.s, ids, start, w.acts)
  }

  /** A list's rule comes to its class's run over its members. */
  lemma ListValue(g: Table, s: string, E: Oracle, e: Env, start: nat)
    requires Composite(Lookup(g, e.id).kind)
    ensures var k := Lookup(g, e.id).kind;
            Value(g, s, E, Impl(g, s, e, start)) ==
            FinishAll(g, s, e, start, Run(k, World(g, s, E, e.acts), k.exprs, start))
  {
    var k := Lookup(g, e.id).kind;
    assert k.exprs == Exprs(g, e.id) && k.exprs[0..] == k.exprs;
    hide Value, Finish;
    match k
    case Or(_) => OrValue(g, s, E, e, start, 0, Untried);
    case MatchFirst(_) => FirstValue(g, s, E, e, start, 0, None);
    case And(ids) => AndListValue(g, s, E, e, start);
  }

  lemma AndListValue(g: Table, s: string, E: Oracle, e: Env, start: nat)
    requires Lookup(g, e.id).kind.And?
    ensures Value(g, s, E, Impl(g, s, e, start)) ==
            FinishAll(g, s, e, start, AndList(World(g, s, E, e.acts), Lookup(g, e.id).kind.exprs, start))
  {
    var ids := Lookup(g, e.id).kind.exprs;
    hide Value, Finish, AndNext, AndRun;
    if ids == [] {
      ValueOfReturn(g, s, E, Finish(g, s, e, start, Raised(IndexFailure)));
    } else {
      var c, k := Call(ids[0], start, e.acts, false), InAnd(e, start, 0, [], false);
      assert Impl(g, s, e, start) == Ask(c, k);
      ValueOfAsk(g, s, E, c, k);
      if E(c).Some? {
        var o := E(c).value;
        if o.Matched? {
          assert [] + o.tokens == o.tokens;
          AndValue(g, s, E, e, start, 1, o.loc, o.tokens, false);
        } else {
          ValueOfReturn(g, s, E, Finish(g, s, e, start, o));
        }
      }
    }
  }

  lemma {:induction false} SameRuns(w: World, w': World, ids: seq<Id>, loc: nat, tokens: Tokens, stop: bool)
    requires SameStops(w.g, w'.g) && w' == w.(g := w'.g)
    ensures AndRun(w, ids, loc, tokens, stop) == AndRun(w', ids, loc, tokens, stop)
    decreases |ids|
  {
    hide SameStops;
    if ids != [] {
      assert IsStop(w.g, ids[0]) == IsStop(w'.g, ids[0]) by { StopsOf(w.g, w'.g, ids[0]); }
      if IsStop(w.g, ids[0]) {
        SameRuns(w, w', ids[1..], loc, tokens, true);
      } else {
        var r := Member(w, ids[0], loc, tokens, stop);
        if r.Some? && r.value.Matched? { SameRuns(w, w', ids[1..], r.value.loc, r.value.tokens, stop); }
      }
    }
  }

  lemma StopsOf(g: Table, g': Table, id: Id)
    requires SameStops(g, g')
    ensures IsStop(g, id) == IsStop(g', id)
  {
  }

  lemma SameListRun(k: Kind, k': Kind, w: World, w': World, ids: seq<Id>, start: nat)
    requires SameClass(k, k') && SameStops(w.g, w'.g) && w' == w.(g := w'.g)
    ensures Run(k, w, ids, start) == Run(k', w', ids, start)
  {
    hide AndRun, SameStops;
    if k.And? && ids != [] {
      var r := w.E(Call(ids[0], start, w.acts, false));
      if r.Some? && r.value.Matched? { SameRuns(w, w', ids[1..], r.value.loc, r.value.tokens, false); }
    }
  }

  // ----- one list spliced into another -----

  function WithExprs(k: Kind, ids: seq<Id>): Kind
    requires Composite(k)
  {
    match k
    case And(_) => And(ids)
    case Or(_) => Or(ids)
    case MatchFirst(_) => MatchFirst(ids)
  }

  /** A nested list of the same class that has no action, no result name and no tracing. */
  predicate Foldable(k: Kind, n: Node) {
    SameClass(k, n.kind) && n.action.None? && !n.named && !n.debug
  }

  function Spliced(n: Node, zs: seq<Id>, x: Node, ys: seq<Id>): Node
    requires Composite(n.kind) && Composite(x.kind)
  {
    n.(kind := WithExprs(n.kind, zs + x.kind.exprs + ys), mayIndexError := n.mayIndexError || x.mayIndexError)
  }

  /** Element `id` has `x` between `zs` and `ys`, and `x` may be replaced by its members. */
  predicate Site(g: Table, id: Id, zs: seq<Id>, x: Id, ys: seq<Id>) {
    && id in g && x != id
    && Composite(g[id].kind) && g[id].kind.exprs == zs + [x] + ys
    && Foldable(g[id].kind, Lookup(g, x))
  }

  function SpliceAt(g: Table, id: Id, zs: seq<Id>, x: Id, ys: seq<Id>): Table
    requires Site(g, id, zs, x, ys)
  {
    g[id := Spliced(g[id], zs, Lookup(g, x), ys)]
  }

  /** What a nested sequence has to meet besides having members: its stops are held back, and in a
      later place its first member is asked for and skips what the sequence would have skipped. */
  ghost predicate SafeSequence(g: Table, zs: seq<Id>, x: Id, xs: seq<Id>, ys: seq<Id>)
    requires xs != []
  {
    && StopsHeld(g, zs, xs[1..], ys)
    && (zs != [] ==> !IsStop(g, xs[0]) && SameLead(g, Lookup(g, x), Lookup(g, xs[0])))
  }

  /** The condition on the place alone: the nested list has members and is not post-processed;
      alternatives have nothing of their own to skip; the outer list turns index errors into
      failures, as constructors arrange, except where no index error can come up. */
  ghost predicate SafeSite(g: Table, id: Id, zs: seq<Id>, x: Id, ys: seq<Id>)
    requires Site(g, id, zs, x, ys)
  {
    var n, m := g[id], Lookup(g, x);
    && m.kind.exprs != [] && m.post.None?
    && (n.kind.MatchFirst? || n.mayIndexError || n.debug)
    && if n.kind.And? then SafeSequence(g, zs, x, m.kind.exprs, ys) else Idle(m)
  }

  // ----- what a nested list means -----

  /** A plain list only settles its outcome. */
  lemma PlainFinish(g: Table, s: string, e: Env, start: nat, r: Option<Outcome>)
    requires Lookup(g, e.id).post.None? && Lookup(g, e.id).action.None?
    ensures Settle(s, FinishAll(g, s, e, start, r)) == Settle(s, r)
  {
  }

  /** An outer list that settles cannot tell outcomes apart that settle alike. */
  lemma SettledFinish(g: Table, g': Table, s: string, e: Env, start: nat, r: Option<Outcome>, r': Option<Outcome>)
    requires Lookup(g, e.id).mayIndexError || Lookup(g, e.id).debug
    requires Settle(s, r) == Settle(s, r')
    requires var m := Lookup(g', e.id); m == Lookup(g, e.id).(kind := m.kind, mayIndexError := m.mayIndexError)
    requires Lookup(g, e.id).mayIndexError ==> Lookup(g', e.id).mayIndexError
    ensures FinishAll(g, s, e, start, r) == FinishAll(g', s, e, start, r')
  {
  }

  /** First match never ends with an index error. */
  lemma NoIndexFailure(E: Oracle, s: string, ids: seq<Id>, start: nat, acts: bool)
    ensures FirstRun(E, s, ids, start, acts) != Some(Raised(IndexFailure))
  {
    var r := FirstSweep(E, s, ids, start, None, acts);
    if r.Some? && r.value.Stop? { SweepStops(E, s, ids, start, None, acts); }
  }

  lemma UnsettledFinish(g: Table, g': Table, s: string, e: Env, start: nat, r: Option<Outcome>)
    requires r != Some(Raised(IndexFailure))
    requires var m := Lookup(g', e.id); m == Lookup(g, e.id).(kind := m.kind, mayIndexError := m.mayIndexError)
    ensures FinishAll(g, s, e, start, r) == FinishAll(g', s, e, start, r)
  {
  }

  /** The nested list's own rule, up to index errors. */
  lemma PlainValue(g: Table, s: string, E: Oracle, k: Kind, x: Id, loc: nat, acts: bool, start: nat)
    requires Foldable(k, Lookup(g, x)) && Lookup(g, x).post.None?
    ensures Settle(s, Value(g, s, E, Impl(g, s, Env(x, loc, acts), start))) ==
            Settle(s, Run(k, World(g, s, E, acts), Lookup(g, x).kind.exprs, start))
  {
    var m, e, w := Lookup(g, x), Env(x, loc, acts), World(g, s, E, acts);
    ListValue(g, s, E, e, start);
    SameListRun(k, m.kind, w, w, m.kind.exprs, start);
    PlainFinish(g, s, e, start, Run(m.kind, w, m.kind.exprs, start));
    hide Value, Run, Impl, FinishAll;
  }

  /** A plain list asked where it has nothing to skip means what its members give. */
  lemma ListMeans(g: Table, s: string, k: Kind, x: Id, loc: nat, acts: bool, pre: bool)
    requires Foldable(k, Lookup(g, x)) && Lookup(g, x).post.None? && (pre ==> Idle(Lookup(g, x)))
    ensures Settle(s, Meaning(g, s, Call(x, loc, acts, pre))) ==
            Settle(s, Run(k, World(g, s, Meant(g, s), acts), Lookup(g, x).kind.exprs, loc))
  {
    var E, c := Meant(g, s), Call(x, loc, acts, pre);
    PlainValue(g, s, E, k, x, loc, acts, loc);
    Fixpoint(g, s, c);
    if pre {
      LeadValue(g, s, E, c);
      IdleLead(E, s, Lookup(g, x), loc);
    } else {
      assert Begin(g, s, c) == Impl(g, s, Env(x, loc, acts), loc);
    }
    hide Value, Meaning, Begin, Impl, Run, Lead;
  }

  /** A plain sequence whose first member skips what it skips means what its members give one after
      the other, the first one skipping for it. */
  lemma SequenceMeans(g: Table, s: string, k: Kind, x: Id, acts: bool)
    requires k.And? && Foldable(k, Lookup(g, x)) && Lookup(g, x).post.None? && Lookup(g, x).kind.exprs != []
    requires SameLead(g, Lookup(g, x), Lookup(g, Lookup(g, x).kind.exprs[0]))
    ensures Unfolds(World(g, s, Meant(g, s), acts), x, Lookup(g, x).kind.exprs)
  {
    var w, xs := World(g, s, Meant(g, s), acts), Lookup(g, x).kind.exprs;
    hide AndThen, Meaning;
    forall l: nat
      ensures Settle(s, w.E(Call(x, l, acts, true))) ==
              Settle(s, AndThen(w, w.E(Call(xs[0], l, acts, true)), xs[1..], false))
    {
      SequenceMeansAt(g, s, k, x, acts, l);
    }
  }

  lemma SequenceMeansAt(g: Table, s: string, k: Kind, x: Id, acts: bool, l: nat)
    requires k.And? && Foldable(k, Lookup(g, x)) && Lookup(g, x).post.None? && Lookup(g, x).kind.exprs != []
    requires SameLead(g, Lookup(g, x), Lookup(g, Lookup(g, x).kind.exprs[0]))
    ensures var xs, w := Lookup(g, x).kind.exprs, World(g, s, Meant(g, s), acts);
            Settle(s, Meaning(g, s, Call(x, l, acts, true))) ==
            Settle(s, AndThen(w, Meaning(g, s, Call(xs[0], l, acts, true)), xs[1..], false))
  {
    var E, m := Meant(g, s), Lookup(g, x);
    var w, y := World(g, s, E, acts), m.kind.exprs[0];
    var c, d := Call(x, l, acts, true), Call(y, l, acts, true);
    SameLeadMeans(g, s, m, Lookup(g, y), l);
    LeadValue(g, s, E, c);
    LeadValue(g, s, E, d);
    Fixpoint(g, s, c);
    Fixpoint(g, s, d);
    var r := Lead(E, s, m, l);
    hide Lead, SameLead, AndThen, Value, Meaning, Begin, Impl;
    if r.Some? && r.value.Matched? {
      var l' := r.value.loc;
      PlainValue(g, s, E, k, x, l, acts, l');
      MeaningWithout(g, s, y, l', acts);
      SameButPlace(g, s, E, y, l, l', acts, l');
      SettleThen(w, Value(g, s, E, Impl(g, s, Env(y, l, acts), l')), Meaning(g, s, Call(y, l', acts, false)), m.kind.exprs[1..], false);
      assert Run(k, w, m.kind.exprs, l') == AndList(w, m.kind.exprs, l');
    }
  }

  lemma MeaningWithout(g: Table, s: string, y: Id, loc: nat, acts: bool)
    ensures Meaning(g, s, Call(y, loc, acts, false)) == Value(g, s, Meant(g, s), Impl(g, s, Env(y, loc, acts), loc))
  {
    var c := Call(y, loc, acts, false);
    assert Begin(g, s, c) == Impl(g, s, Env(y, loc, acts), loc);
    hide Meaning, Value, Begin, Impl;
    Fixpoint(g, s, c);
  }

  // ----- before and after -----

  /** What the place needs of the nested list, in the table before or after. */
  ghost predicate Nested(h: Table, k: Kind, zs: seq<Id>, x: Id, ys: seq<Id>) {
    var m := Lookup(h, x);
    && Foldable(k, m) && m.kind.exprs != [] && m.post.None?
    && if k.And? then SafeSequence(h, zs, x, m.kind.exprs, ys) else Idle(m)
  }

  /** On meanings, the list with the nested one and the list with its members run alike. */
  lemma RunSplice(h: Table, s: string, k: Kind, zs: seq<Id>, x: Id, ys: seq<Id>, start: nat, acts: bool)
    requires Composite(k) && Nested(h, k, zs, x, ys)
    ensures var w, xs := World(h, s, Meant(h, s), acts), Lookup(h, x).kind.exprs;
            Settle(s, Run(k, w, zs + [x] + ys, start)) == Settle(s, Run(k, w, zs + xs + ys, start))
  {
    var w, m := World(h, s, Meant(h, s), acts), Lookup(h, x);
    var xs := m.kind.exprs;
    hide Meaning, FirstRun, OrRun, AndList, Unfolds, SameLead, StopsHeld;
    match k
    case MatchFirst(_) =>
      ListMeans(h, s, k, x, start, acts, true);
      FirstSplice(w.E, s, zs, x, xs, ys, start, acts);
    case Or(_) =>
      ListMeans(h, s, k, x, start, acts, true);
      ListMeans(h, s, k, x, start, false, true);
      OrSplice(w.E, s, zs, x, xs, ys, start, acts);
    case And(_) =>
      if zs == [] {
        ListMeans(h, s, k, x, start, acts, false);
        AndSpliceFirst(w, x, xs, ys, start);
        assert zs + [x] + ys == [x] + ys && zs + xs + ys == xs + ys;
      } else {
        SequenceMeans(h, s, k, x, acts);
        AndSpliceLater(w, zs, x, xs, ys, start);
      }
  }

  lemma SpliceStops(g: Table, id: Id, zs: seq<Id>, x: Id, ys: seq<Id>)
    requires Site(g, id, zs, x, ys)
    ensures SameStops(g, SpliceAt(g, id, zs, x, ys))
  {
  }

  lemma SameHeld(g: Table, g': Table, zs: seq<Id>, xs: seq<Id>, ys: seq<Id>)
    requires SameStops(g, g') && StopsHeld(g, zs, xs, ys)
    ensures StopsHeld(g', zs, xs, ys)
  {
  }

  lemma SameLeadAfter(g: Table, id: Id, zs: seq<Id>, x: Id, ys: seq<Id>, a: Id, b: Id)
    requires Site(g, id, zs, x, ys) && SameLead(g, Lookup(g, a), Lookup(g, b))
    ensures var g' := SpliceAt(g, id, zs, x, ys); SameLead(g', Lookup(g', a), Lookup(g', b))
  {
    var g' := SpliceAt(g, id, zs, x, ys);
    var n, m := Lookup(g, a), Lookup(g, b);
    assert Ignored(Lookup(g', a)) == Ignored(n) && Ignored(Lookup(g', b)) == Ignored(m);
    assert Blanks(Lookup(g', a)) == Blanks(n) && Blanks(Lookup(g', b)) == Blanks(m);
    hide Ignored, Blanks;
    forall i | 0 <= i < |Ignored(n)| ensures Copies(g', Ignored(n)[i], Ignored(m)[i]) {
      assert Copies(g, Ignored(n)[i], Ignored(m)[i]);
    }
  }

  lemma NestedAfter(g: Table, id: Id, zs: seq<Id>, x: Id, ys: seq<Id>)
    requires Site(g, id, zs, x, ys) && Nested(g, g[id].kind, zs, x, ys)
    ensures Nested(SpliceAt(g, id, zs, x, ys), g[id].kind, zs, x, ys)
  {
    var g', m := SpliceAt(g, id, zs, x, ys), Lookup(g, x);
    SpliceStops(g, id, zs, x, ys);
    assert Lookup(g', x) == m;
    if g[id].kind.And? {
      SameHeld(g, g', zs, m.kind.exprs[1..], ys);
      StopsOf(g, g', m.kind.exprs[0]);
      if zs != [] { SameLeadAfter(g, id, zs, x, ys, x, m.kind.exprs[0]); }
    }
    hide SpliceAt, Idle, SameLead, SameStops, StopsHeld, Lookup;
  }

  /** The opened list's rule, on the meanings of either table. */
  lemma OpenedImpl(g: Table, id: Id, zs: seq<Id>, x: Id, ys: seq<Id>, h: Table, s: string, e: Env, start: nat)
    requires Site(g, id, zs, x, ys) && SafeSite(g, id, zs, x, ys) && e.id == id
    requires h == g || h == SpliceAt(g, id, zs, x, ys)
    ensures var g', E := SpliceAt(g, id, zs, x, ys), Meant(h, s);
            Value(g, s, E, Impl(g, s, e, start)) == Value(g', s, E, Impl(g', s, e, start))
  {
    var g', E, k, xs := SpliceAt(g, id, zs, x, ys), Meant(h, s), g[id].kind, Lookup(g, x).kind.exprs;
    var k', w := g'[id].kind, World(h, s, E, e.acts);
    NestedAfter(g, id, zs, x, ys);
    SpliceStops(g, id, zs, x, ys);
    assert Lookup(h, x) == Lookup(g, x) && SameStops(h, g) && SameStops(h, g');
    assert Lookup(g', id) == Lookup(g, id).(kind := k', mayIndexError := g'[id].mayIndexError);
    assert SameClass(k, k') && k'.exprs == zs + xs + ys && Nested(h, k, zs, x, ys);
    ListValue(g, s, E, e, start);
    ListValue(g', s, E, e, start);
    RunSplice(h, s, k, zs, x, ys, start, e.acts);
    SameListRun(k, k, w, w.(g := g), k.exprs, start);
    SameListRun(k, k', w, w.(g := g'), k'.exprs, start);
    var r, r' := Run(k, w, k.exprs, start), Run(k, w, k'.exprs, start);
    if k.MatchFirst? {
      NoIndexFailure(E, s, k.exprs, start, e.acts);
      NoIndexFailure(E, s, k'.exprs, start, e.acts);
      UnsettledFinish(g, g', s, e, start, r);
    } else {
      SettledFinish(g, g', s, e, start, r, r');
    }
    hide Value, Impl, FinishAll, FirstRun, OrRun, AndList, Nested, Meaning, SpliceAt;
  }

  lemma SplicedValue(g: Table, id: Id, zs: seq<Id>, x: Id, ys: seq<Id>, h: Table, s: string, c: Call)
    requires Site(g, id, zs, x, ys) && SafeSite(g, id, zs, x, ys)
    requires h == g || h == SpliceAt(g, id, zs, x, ys)
    ensures var g', E := SpliceAt(g, id, zs, x, ys), Meant(h, s);
            Value(g, s, E, Begin(g, s, c)) == Value(g', s, E, Begin(g', s, c))
  {
    var g', E, e := SpliceAt(g, id, zs, x, ys), Meant(h, s), Env(c.id, c.loc, c.acts);
    if c.id != id {
      SpliceStops(g, id, zs, x, ys);
      SameValue(g, g', s, E, c, c);
    } else if c.pre {
      LeadValue(g, s, E, c);
      LeadValue(g', s, E, c);
      var r := Lead(E, s, Lookup(g, id), c.loc);
      assert r == Lead(E, s, Lookup(g', id), c.loc);
      hide Value, Impl, Begin, Lead, SafeSite, SpliceAt, Meaning;
      if r.Some? && r.value.Matched? { OpenedImpl(g, id, zs, x, ys, h, s, e, r.value.loc); }
    } else {
      assert Begin(g, s, c) == Impl(g, s, e, c.loc) && Begin(g', s, c) == Impl(g', s, e, c.loc);
      hide Value, Impl, Begin, SafeSite, SpliceAt, Meaning;
      OpenedImpl(g, id, zs, x, ys, h, s, e, c.loc);
    }
  }

  // ----- meanings carry over -----

  ghost predicate SameMeaning(g: Table, g': Table) {
    forall s: string, c: Call :: Meaning(g, s, c) == Meaning(g', s, c)
  }

  ghost predicate Alike(g: Table, g': Table, s: string, E: Oracle) {
    forall c :: Value(g, s, E, Begin(g, s, c)) == Value(g', s, E, Begin(g', s, c))
  }

  /** Tables that agree on the answers of both have the same least solution. */
  lemma AlikeMeans(g: Table, g': Table, s: string, c: Call)
    requires Alike(g, g', s, Meant(g, s)) && Alike(g, g', s, Meant(g', s))
    ensures Meaning(g, s, c) == Meaning(g', s, c)
  {
    AlikeCloses(g, g', s);
    AlikeCloses(g', g, s);
    hide Meaning, Closed, Alike;
    if Meaning(g, s, c).Some? { Least(g, s, Meant(g', s), c); }
    if Meaning(g', s, c).Some? { Least(g', s, Meant(g, s), c); }
  }

  lemma AlikeCloses(g: Table, g': Table, s: string)
    requires Alike(g, g', s, Meant(g', s)) || Alike(g', g, s, Meant(g', s))
    ensures Closed(g, s, Meant(g', s))
  {
    hide Meaning, Value, Begin;
    var E := Meant(g', s);
    forall c ensures Value(g, s, E, Begin(g, s, c)) == E(c) { Fixpoint(g', s, c); }
  }

  /** Replacing a nested list by its members at a safe place changes no parse of any element. The
      rest of the grammar is arbitrary. */
  lemma SpliceKeepsMeaning(g: Table, id: Id, zs: seq<Id>, x: Id, ys: seq<Id>)
    requires Site(g, id, zs, x, ys) && SafeSite(g, id, zs, x, ys)
    ensures SameMeaning(g, SpliceAt(g, id, zs, x, ys))
  {
    var g' := SpliceAt(g, id, zs, x, ys);
    hide Meaning, Value, Begin, SafeSite, Site, SpliceAt;
    forall s: string, c: Call ensures Meaning(g, s, c) == Meaning(g', s, c) {
      forall d { SplicedValue(g, id, zs, x, ys, g, s, d); }
      forall d { SplicedValue(g, id, zs, x, ys, g', s, d); }
      AlikeMeans(g, g', s, c);
    }
  }

  /** Neither does marking a forward as streamlined. */
  lemma MarkKeepsMeaning(g: Table, id: Id, n: Node)
    requires SameRule(Lookup(g, id), n)
    ensures SameMeaning(g, g[id := n])
  {
    var g' := g[id := n];
    assert forall i :: SameRule(Lookup(g, i), Lookup(g', i));
    assert SameStops(g, g');
    hide Meaning, Value, Begin, SameRule, Lookup, SameStops;
    forall s: string, c: Call ensures Meaning(g, s, c) == Meaning(g', s, c) {
      forall d { SameValue(g, g', s, Meant(g, s), d, d); }
      forall d { SameValue(g, g', s, Meant(g', s), d, d); }
      AlikeMeans(g, g', s, c);
    }
  }
}
