/** Grammars of a given shape around a nested list, and what their elements mean. */
module Scenes {
  import opened Results
  import opened Grammar
  import opened Meanings
  import opened Splice
  import opened Mirrors
  import opened Leading
  import opened Streamline

  // ----- small grammars -----

  function Plain(kind: Kind): Node {
    Node(kind, false, "", [], true, true, None, None, false, false, false)
  }

  /** Fails at a fixed place wherever it is asked. */
  function Fails(): Node {
    Plain(Leaf((s: string, loc: nat) => Raised(ParseError(0))))
  }

  function Passes(): Node {
    Plain(Leaf((s: string, loc: nat) => Matched(loc, [])))
  }

  function Fatal(): Node {
    Plain(Leaf((s: string, loc: nat) => Raised(FatalError(0))))
  }

  /** Opening `x` between `zs` and `ys` of `id` changes some parse. */
  ghost predicate Changes(g: Table, id: Id, zs: seq<Id>, x: Id, ys: seq<Id>) {
    Site(g, id, zs, x, ys) && !SameMeaning(g, SpliceAt(g, id, zs, x, ys))
  }

  lemma ChangesHere(g: Table, id: Id, zs: seq<Id>, x: Id, ys: seq<Id>, s: string, c: Call)
    requires Site(g, id, zs, x, ys) && Meaning(g, s, c) != Meaning(SpliceAt(g, id, zs, x, ys), s, c)
    ensures Changes(g, id, zs, x, ys)
  {
    hide Meaning, Site, SpliceAt;
  }

  // ----- what their elements mean -----

  lemma LeafMeans(g: Table, s: string, c: Call, m: (string, nat) -> Outcome)
    requires Lookup(g, c.id) == Plain(Leaf(m)) && m(s, c.loc) != Raised(IndexFailure)
    ensures Meaning(g, s, c) == Some(m(s, c.loc))
  {
    NoBlanks(s, c.loc);
    assert Begin(g, s, c) == Return(m(s, c.loc));
    hide Begin, Meaning;
    ParsedIsMeant(g, s, c, 0);
  }

  lemma PassMeans(g: Table, s: string, c: Call)
    requires Lookup(g, c.id) == Passes() || Lookup(g, c.id) == Plain(ErrorStop)
    ensures Meaning(g, s, c) == Some(Matched(c.loc, []))
  {
    NoBlanks(s, c.loc);
    assert Begin(g, s, c) == Return(Matched(c.loc, []));
    hide Begin, Meaning;
    ParsedIsMeant(g, s, c, 0);
  }

  lemma FailMeans(g: Table, s: string, c: Call)
    requires Lookup(g, c.id) == Fails()
    ensures Meaning(g, s, c) == Some(Raised(ParseError(0)))
  {
    LeafMeans(g, s, c, Fails().kind.matcher);
    hide Meaning;
  }

  lemma FatalMeans(g: Table, s: string, c: Call)
    requires Lookup(g, c.id) == Fatal()
    ensures Meaning(g, s, c) == Some(Raised(FatalError(0)))
  {
    LeafMeans(g, s, c, Fatal().kind.matcher);
    hide Meaning;
  }

  /** A list means what its rule makes of its members, from where its leading material ends. */
  lemma ListAt(g: Table, s: string, c: Call, start: nat)
    requires Composite(Lookup(g, c.id).kind)
    requires if c.pre then Lead(Meant(g, s), s, Lookup(g, c.id), c.loc) == Some(Matched(start, [])) else start == c.loc
    ensures var k := Lookup(g, c.id).kind;
            Meaning(g, s, c) == FinishAll(g, s, Env(c.id, c.loc, c.acts), start,
                                          Run(k, World(g, s, Meant(g, s), c.acts), k.exprs, start))
  {
    var e := Env(c.id, c.loc, c.acts);
    Fixpoint(g, s, c);
    ListValue(g, s, Meant(g, s), e, start);
    if c.pre { LeadValue(g, s, Meant(g, s), c); } else { assert Begin(g, s, c) == Impl(g, s, e, start); }
    hide Meaning, Value, Begin, Impl, Lead, Run, FinishAll;
  }

  lemma PlainAt(g: Table, s: string, c: Call, k: Kind)
    requires Composite(k) && Lookup(g, c.id) == Plain(k)
    ensures Meaning(g, s, c) == Settle(s, Run(k, World(g, s, Meant(g, s), c.acts), k.exprs, c.loc))
  {
    IdleLead(Meant(g, s), s, Lookup(g, c.id), c.loc);
    ListAt(g, s, c, c.loc);
    hide Meaning, Lead, AndList, OrRun, FirstRun;
  }

  // ----- runs over uniform members -----

  /** Every member passes at `loc` without moving, or is an error stop. */
  ghost predicate Passing(w: World, ids: seq<Id>, loc: nat) {
    forall i :: 0 <= i < |ids| ==> w.E(Call(ids[i], loc, w.acts, true)) == Some(Matched(loc, []))
  }

  lemma {:induction false} PassRun(w: World, ids: seq<Id>, loc: nat, tokens: Tokens, stop: bool)
    requires Passing(w, ids, loc)
    ensures AndRun(w, ids, loc, tokens, stop) == Some(Matched(loc, tokens))
    decreases |ids|
  {
    if ids != [] {
      assert tokens + [] == tokens;
      PassRun(w, ids[1..], loc, tokens, stop);
      PassRun(w, ids[1..], loc, tokens, true);
    }
  }

  lemma PassList(w: World, ids: seq<Id>, loc: nat)
    requires ids != [] && Passing(w, ids[1..], loc)
    requires w.E(Call(ids[0], loc, w.acts, false)) == Some(Matched(loc, []))
    ensures AndList(w, ids, loc) == Some(Matched(loc, []))
  {
    PassRun(w, ids[1..], loc, [], false);
  }

  ghost predicate Failing(E: Oracle, ids: seq<Id>, start: nat, acts: bool) {
    forall i :: 0 <= i < |ids| ==> E(Call(ids[i], start, acts, true)) == Some(Raised(ParseError(0)))
  }

  function FailedAt(ids: seq<Id>, at: Option<nat>): Option<nat> {
    if ids == [] then at else Further(at, 0)
  }

  lemma {:induction false} FailSweep(E: Oracle, s: string, ids: seq<Id>, start: nat, at: Option<nat>, acts: bool)
    requires Failing(E, ids, start, acts)
    ensures FirstSweep(E, s, ids, start, at, acts) == Some(Furthest(FailedAt(ids, at)))
    decreases |ids|
  {
    if ids != [] { FailSweep(E, s, ids[1..], start, Further(at, 0), acts); }
  }

  lemma {:induction false} FailTrials(E: Oracle, s: string, ids: seq<Id>, start: nat, t: Tally)
    requires Failing(E, ids, start, false)
    ensures Trials(E, s, ids, start, t) == Some(Tally(FailedAt(ids, t.furthest), t.best))
    decreases |ids|
  {
    if ids != [] { FailTrials(E, s, ids[1..], start, Tallied(s, start, ids[0], Raised(ParseError(0)), t)); }
  }

  /** Alternatives all of which fail except perhaps one in the middle. */
  lemma FailFirst(E: Oracle, s: string, zs: seq<Id>, x: Id, ys: seq<Id>, start: nat, acts: bool)
    requires Failing(E, zs + ys, start, acts) && E(Call(x, start, acts, true)).Some?
    ensures var o := E(Call(x, start, acts, true)).value;
            FirstRun(E, s, zs + [x] + ys, start, acts) ==
            if o.Matched? || FailureAt(s, o.exc).None? then Some(o)
            else Some(NoneMatched(start, FailedAt(ys, Further(FailedAt(zs, None), FailureAt(s, o.exc).value))))
  {
    var o := E(Call(x, start, acts, true)).value;
    FailParts(E, zs, ys, start, acts);
    assert zs + [x] + ys == zs + ([x] + ys) && ([x] + ys)[1..] == ys;
    SweepSplit(E, s, zs, [x] + ys, start, None, acts);
    FailSweep(E, s, zs, start, None, acts);
    if o.Raised? && FailureAt(s, o.exc).Some? {
      FailSweep(E, s, ys, start, Further(FailedAt(zs, None), FailureAt(s, o.exc).value), acts);
    }
    hide Failing;
  }

  lemma FailOr(E: Oracle, s: string, zs: seq<Id>, x: Id, ys: seq<Id>, start: nat, acts: bool)
    requires Failing(E, zs + ys, start, false) && E(Call(x, start, false, true)).Some?
    ensures var o := E(Call(x, start, false, true)).value;
            var u := Trial(start, o);
            OrRun(E, s, zs + [x] + ys, start, acts) ==
            if u.Matched? then E(Call(x, start, acts, true))
            else Some(NoneMatched(start, FailedAt(ys, Further(FailedAt(zs, None), if u.exc.ParseError? then u.exc.loc else |s|))))
  {
    var o := E(Call(x, start, false, true)).value;
    FailParts(E, zs, ys, start, false);
    assert zs + [x] + ys == zs + ([x] + ys) && ([x] + ys)[1..] == ys;
    TrialsSplit(E, s, zs, [x] + ys, start, Untried);
    FailTrials(E, s, zs, start, Untried);
    FailTrials(E, s, ys, start, Tallied(s, start, x, o, Tally(FailedAt(zs, None), None)));
    hide Failing;
  }

  lemma FailParts(E: Oracle, zs: seq<Id>, ys: seq<Id>, start: nat, acts: bool)
    requires Failing(E, zs + ys, start, acts)
    ensures Failing(E, zs, start, acts) && Failing(E, ys, start, acts)
  {
    forall i | 0 <= i < |zs| ensures E(Call(zs[i], start, acts, true)) == Some(Raised(ParseError(0))) {
      assert (zs + ys)[i] == zs[i];
    }
    forall i | 0 <= i < |ys| ensures E(Call(ys[i], start, acts, true)) == Some(Raised(ParseError(0))) {
      assert (zs + ys)[|zs| + i] == ys[i];
    }
  }

  /** Alternatives of which the first ones fail and the next one passes without moving. */
  lemma PassFirst(E: Oracle, s: string, zs: seq<Id>, ids: seq<Id>, start: nat, acts: bool)
    requires Failing(E, zs, start, acts) && ids != [] && E(Call(ids[0], start, acts, true)) == Some(Matched(start, []))
    ensures FirstRun(E, s, zs + ids, start, acts) == Some(Matched(start, []))
  {
    SweepSplit(E, s, zs, ids, start, None, acts);
    FailSweep(E, s, zs, start, None, acts);
    hide Failing;
  }

  ghost predicate PassingTrials(E: Oracle, ids: seq<Id>, start: nat) {
    forall i :: 0 <= i < |ids| ==> E(Call(ids[i], start, false, true)) == Some(Matched(start, []))
  }

  lemma {:induction false} PassTrials(E: Oracle, s: string, ids: seq<Id>, start: nat, t: Tally)
    requires PassingTrials(E, ids, start) && t.best.Some? && t.best.value.0 == start
    ensures Trials(E, s, ids, start, t) == Some(t)
    decreases |ids|
  {
    if ids != [] { PassTrials(E, s, ids[1..], start, t); }
  }

  lemma PassOr(E: Oracle, s: string, zs: seq<Id>, xs: seq<Id>, ys: seq<Id>, start: nat, acts: bool)
    requires Failing(E, zs, start, false) && Failing(E, ys, start, false)
    requires xs != [] && PassingTrials(E, xs, start)
    ensures OrRun(E, s, zs + xs + ys, start, acts) == E(Call(xs[0], start, acts, true))
  {
    var t := Tally(FailedAt(zs, None), Some((start, xs[0])));
    assert zs + xs + ys == zs + (xs + ys);
    TrialsSplit(E, s, zs, xs + ys, start, Untried);
    FailTrials(E, s, zs, start, Untried);
    assert Tallied(s, start, xs[0], Matched(start, []), Tally(FailedAt(zs, None), None)) == t;
    assert Trials(E, s, xs, start, Tally(FailedAt(zs, None), None)) == Some(t) by {
      assert PassingTrials(E, xs[1..], start);
      PassTrials(E, s, xs[1..], start, t);
    }
    TrialsSplit(E, s, xs, ys, start, Tally(FailedAt(zs, None), None));
    FailTrials(E, s, ys, start, t);
    hide Failing, PassingTrials, Trials;
  }

  // ----- grammars of a given shape -----

  /** A list of class `k` holding `zs`, a nested list `n` with members `xs`, and `ys`. Which members
      are error stops and what `n` and its first member have to skip is part of the shape; what the
      members and ignorable elements do is not. */
  datatype Shape = Shape(k: Kind, n: Node, lead: Node, zs: seq<Id>, xs: seq<Id>, ys: seq<Id>, stops: set<Id>)

  /** A choice for the rest: definitions for the members before, inside and after, and which ignorable
      elements are fatal; the others fail. */
  datatype Cast = Cast(before: Node, inside: Node, after: Node, fatal: set<Id>)

  /** Which members are error stops is up to the shape. */
  predicate Playable(c: Cast) {
    !c.before.kind.ErrorStop? && !c.inside.kind.ErrorStop? && !c.after.kind.ErrorStop?
  }

  function SkippedIds(h: Shape): seq<Id> {
    h.n.ignoreExprs + h.lead.ignoreExprs
  }

  function AllIds(h: Shape): seq<Id> {
    h.zs + h.xs + h.ys + SkippedIds(h)
  }

  /** All elements are different from the lists and in one role only. */
  ghost predicate Sound(h: Shape) {
    && Composite(h.k) && h.n.kind == WithExprs(h.k, h.xs) && Foldable(h.k, h.n) && h.n.post.None?
    && h.lead.action.None? && h.lead.post.None?
    && (forall i :: i in AllIds(h) ==> i > 1)
    && (forall i :: i in h.zs ==> i !in h.xs) && (forall i :: i in h.ys ==> i !in h.zs && i !in h.xs)
    && (forall i :: i in SkippedIds(h) ==> i !in h.zs && i !in h.xs && i !in h.ys)
    && (!h.k.And? ==> h.stops == {} && h.lead == Passes()) && (h.xs != [] ==> h.xs[0] !in h.xs[1..])
  }

  function Role(h: Shape, c: Cast, i: Id): Node {
    if i in SkippedIds(h) then if i in c.fatal then Fatal() else Fails()
    else if i in h.stops then Plain(ErrorStop)
    else if i in h.zs then c.before
    else if i in h.ys then c.after
    else if h.xs != [] && i == h.xs[0] then h.lead.(kind := c.inside.kind)
    else c.inside
  }

  function Scene(h: Shape, c: Cast): Table
    requires Composite(h.k)
  {
    (map i | i in AllIds(h) :: Role(h, c, i))[0 := Plain(WithExprs(h.k, h.zs + [1] + h.ys))][1 := h.n]
  }

  function SceneAfter(h: Shape, c: Cast): Table
    requires Composite(h.k)
  {
    Scene(h, c)[0 := Plain(WithExprs(h.k, h.zs + h.xs + h.ys))]
  }

  ghost predicate Staged(g: Table, h: Shape, c: Cast) {
    (forall i :: i in AllIds(h) ==> Lookup(g, i) == Role(h, c, i)) && Lookup(g, 1) == h.n
  }

  lemma SceneStands(h: Shape, c: Cast)
    requires Sound(h)
    ensures Site(Scene(h, c), 0, h.zs, 1, h.ys) && SpliceAt(Scene(h, c), 0, h.zs, 1, h.ys) == SceneAfter(h, c)
    ensures IsBefore(Scene(h, c), h, c) && IsAfter(SceneAfter(h, c), h, c)
  {
    var g := Scene(h, c);
    assert g[0] == Plain(WithExprs(h.k, h.zs + [1] + h.ys)) && g[1] == h.n;
    assert forall i :: i in AllIds(h) ==> Lookup(g, i) == Role(h, c, i);
    assert forall i :: i in AllIds(h) ==> Lookup(SceneAfter(h, c), i) == Lookup(g, i);
    assert Spliced(g[0], h.zs, h.n, h.ys) == Plain(WithExprs(h.k, h.zs + h.xs + h.ys));
    hide Role, AllIds;
  }

  ghost predicate IsBefore(g: Table, h: Shape, c: Cast)
    requires Composite(h.k)
  {
    Staged(g, h, c) && Lookup(g, 0) == Plain(WithExprs(h.k, h.zs + [1] + h.ys))
  }

  ghost predicate IsAfter(g: Table, h: Shape, c: Cast)
    requires Composite(h.k)
  {
    Staged(g, h, c) && Lookup(g, 0) == Plain(WithExprs(h.k, h.zs + h.xs + h.ys))
  }

  /** The shape can be filled in so that opening the nested list changes a parse. */
  ghost predicate CanChange(h: Shape)
    requires Sound(h)
  {
    exists c: Cast :: Playable(c) && Changes(Scene(h, c), 0, h.zs, 1, h.ys)
  }

  lemma SceneChanges(h: Shape, c: Cast, s: string, loc: nat)
    requires Sound(h) && Playable(c)
    requires Meaning(Scene(h, c), s, Call(0, loc, true, true)) != Meaning(SceneAfter(h, c), s, Call(0, loc, true, true))
    ensures CanChange(h)
  {
    SceneStands(h, c);
    hide Meaning, Site, SpliceAt, Scene, SceneAfter, Sound, IsBefore, IsAfter;
    ChangesHere(Scene(h, c), 0, h.zs, 1, h.ys, s, Call(0, loc, true, true));
  }

  // ----- what the parts of a scene do -----

  lemma {:induction false} SkipFails(E: Oracle, ids: seq<Id>, i: nat, loc: nat)
    requires ids != [] && i <= |ids| && forall j :: 0 <= j < |ids| ==> E(Call(ids[j], loc, true, true)) == Some(Raised(ParseError(0)))
    ensures SkipSteps(E, ids, i, false, loc, |ids| - i) == Some(Matched(loc, []))
    decreases |ids| - i
  {
    if i < |ids| { SkipFails(E, ids, i + 1, loc); }
  }

  ghost predicate FailsOrFatal(E: Oracle, id: Id, loc: nat, fatal: set<Id>) {
    E(Call(id, loc, true, true)) == Some(Raised(if id in fatal then FatalError(0) else ParseError(0)))
  }

  lemma {:induction false} SkipFatal(E: Oracle, ids: seq<Id>, i: nat, loc: nat, fatal: set<Id>, at: nat)
    requires i <= at < |ids| && ids[at] in fatal && forall j :: 0 <= j < |ids| ==> FailsOrFatal(E, ids[j], loc, fatal)
    ensures SkipSteps(E, ids, i, false, loc, |ids| - i) == Some(Raised(FatalError(0)))
    decreases |ids| - i
  {
    assert FailsOrFatal(E, ids[i], loc, fatal);
    if ids[i] !in fatal { SkipFatal(E, ids, i + 1, loc, fatal, at); }
  }

  ghost predicate MeetsFatal(n: Node, c: Cast) {
    exists i :: i in Ignored(n) && i in c.fatal
  }

  /** What a node of the shape skips when its ignorable elements fail or are fatal. */
  lemma SceneLead(g: Table, h: Shape, c: Cast, n: Node, s: string, loc: nat)
    requires Staged(g, h, c) && forall i :: i in n.ignoreExprs ==> i in SkippedIds(h)
    ensures Lead(Meant(g, s), s, n, loc) ==
            Some(if MeetsFatal(n, c) then Raised(FatalError(0)) else Matched(SkipWhite(Blanks(n), s, loc), []))
  {
    var E, ids := Meant(g, s), Ignored(n);
    assert forall j :: 0 <= j < |ids| ==> ids[j] in SkippedIds(h);
    LeadByParts(E, s, n, loc);
    hide Lead, Staged, Meaning, SkippedIds, SkipWhite, Blanks;
    forall j | 0 <= j < |ids| ensures FailsOrFatal(E, ids[j], loc, c.fatal) {
      SceneSkipped(g, h, c, s, ids[j], loc);
    }
    SkipAllIs(E, ids, loc, c.fatal);
    hide SkipAll, FailsOrFatal;
  }

  lemma SkipAllIs(E: Oracle, ids: seq<Id>, loc: nat, fatal: set<Id>)
    requires forall j :: 0 <= j < |ids| ==> FailsOrFatal(E, ids[j], loc, fatal)
    ensures SkipAll(E, ids, loc) ==
            Some(if exists i :: i in ids && i in fatal then Raised(FatalError(0)) else Matched(loc, []))
  {
    hide SkipSteps, SkipOutcome;
    if ids != [] {
      if i :| i in ids && i in fatal {
        var at :| 0 <= at < |ids| && ids[at] == i;
        SkipFatal(E, ids, 0, loc, fatal, at);
      } else {
        SkipFails(E, ids, 0, loc);
      }
      SkipOutcomeIs(E, ids, loc, |ids|);
    }
  }

  lemma SceneSkipped(g: Table, h: Shape, c: Cast, s: string, id: Id, loc: nat)
    requires Staged(g, h, c) && id in SkippedIds(h)
    ensures FailsOrFatal(Meant(g, s), id, loc, c.fatal)
  {
    assert id in AllIds(h);
    if id in c.fatal { FatalMeans(g, s, Call(id, loc, true, true)); } else { FailMeans(g, s, Call(id, loc, true, true)); }
    hide Meaning, SkippedIds;
  }

  /** A member that passes, asked where it has nothing of its own to skip. */
  lemma MemberPasses(g: Table, h: Shape, c: Cast, s: string, q: Call)
    requires Staged(g, h, c) && q.id in AllIds(h)
    requires Role(h, c, q.id) == Passes() || Role(h, c, q.id) == Plain(ErrorStop)
    ensures Meaning(g, s, q) == Some(Matched(q.loc, []))
  {
    assert Lookup(g, q.id) == Role(h, c, q.id);
    PassMeans(g, s, q);
    hide Meaning, Role;
  }

  /** The first member of the nested list, when it passes. */
  lemma LeadPasses(g: Table, h: Shape, c: Cast, s: string, q: Call)
    requires Sound(h) && Staged(g, h, c) && h.xs != [] && q.id == h.xs[0] && q.id !in h.stops && c.inside.kind == Passes().kind
    ensures Meaning(g, s, q) ==
            Some(if !q.pre then Matched(q.loc, [])
                 else if MeetsFatal(h.lead, c) then Raised(FatalError(0))
                 else Matched(SkipWhite(Blanks(h.lead), s, q.loc), []))
  {
    var m, e, E := h.lead.(kind := c.inside.kind), Env(q.id, q.loc, q.acts), Meant(g, s);
    assert q.id in AllIds(h) && q.id !in SkippedIds(h) && q.id !in h.zs && q.id !in h.ys;
    assert Lookup(g, q.id) == m;
    assert Ignored(m) == Ignored(h.lead) && Blanks(m) == Blanks(h.lead);
    assert forall loc: nat :: Impl(g, s, e, loc) == Return(Matched(loc, []));
    Fixpoint(g, s, q);
    if q.pre {
      SceneLead(g, h, c, m, s, q.loc);
      LeadValue(g, s, E, q);
    } else {
      assert Begin(g, s, q) == Impl(g, s, e, q.loc);
    }
    hide Meaning, Value, Begin, Lead, Staged, Sound, Role, Impl;
    ValueOfReturn(g, s, E, Matched(q.loc, []));
    ValueOfReturn(g, s, E, Matched(SkipWhite(Blanks(h.lead), s, q.loc), []));
  }

  /** The nested list. */
  lemma NestedAt(g: Table, h: Shape, c: Cast, s: string, q: Call)
    requires Sound(h) && Staged(g, h, c) && q.id == 1
    ensures var start := if q.pre then SkipWhite(Blanks(h.n), s, q.loc) else q.loc;
            Meaning(g, s, q) ==
            if q.pre && MeetsFatal(h.n, c) then Some(Raised(FatalError(0)))
            else FinishAll(g, s, Env(1, q.loc, q.acts), start, Run(h.k, World(g, s, Meant(g, s), q.acts), h.xs, start))
  {
    assert Lookup(g, 1) == h.n && SameClass(h.k, h.n.kind) && h.n.kind.exprs == h.xs;
    SceneLead(g, h, c, h.n, s, q.loc);
    var start := if q.pre then SkipWhite(Blanks(h.n), s, q.loc) else q.loc;
    if q.pre && MeetsFatal(h.n, c) {
      LeadValue(g, s, Meant(g, s), q);
      Fixpoint(g, s, q);
    } else {
      ListAt(g, s, q, start);
      SameListRun(h.k, h.n.kind, World(g, s, Meant(g, s), q.acts), World(g, s, Meant(g, s), q.acts), h.xs, start);
    }
    hide Meaning, Value, Begin, Lead, Staged, Sound, Run, FinishAll;
  }

  /** The outer list, before and after. */
  lemma OuterAt(g: Table, h: Shape, s: string, loc: nat, ids: seq<Id>)
    requires Composite(h.k) && Lookup(g, 0) == Plain(WithExprs(h.k, ids))
    ensures Meaning(g, s, Call(0, loc, true, true)) == Settle(s, Run(h.k, World(g, s, Meant(g, s), true), ids, loc))
  {
    var k, w := WithExprs(h.k, ids), World(g, s, Meant(g, s), true);
    PlainAt(g, s, Call(0, loc, true, true), k);
    SameListRun(h.k, k, w, w, ids, loc);
    hide Meaning, Run;
  }

  // ----- sequences -----

  /** Members that pass wherever the sequence asks them. */
  ghost predicate Front(w: World, ids: seq<Id>, loc: nat) {
    ids != [] && Passing(w, ids[1..], loc) && w.E(Call(ids[0], loc, w.acts, false)) == Some(Matched(loc, []))
  }

  /** After members that pass, a sequence comes to its next member. */
  lemma FrontThen(w: World, zs: seq<Id>, id: Id, ys: seq<Id>, loc: nat)
    requires Front(w, zs, loc) && !IsStop(w.g, id)
    ensures AndList(w, zs + [id] + ys, loc) ==
            AndThen(w, Blame(w.s, HasStop(w.g, zs[1..]), w.E(Call(id, loc, w.acts, true))), ys, HasStop(w.g, zs[1..]))
  {
    var stop, r := HasStop(w.g, zs[1..]), w.E(Call(id, loc, w.acts, true));
    LaterSplit(w, zs, [id], ys, loc);
    PassList(w, zs, loc);
    MemberOnly(w, id, loc, [], stop);
    HasStopCons(w.g, [id]);
    assert Prepend([], Blame(w.s, stop, r)) == Blame(w.s, stop, r) by {
      if r.Some? && r.value.Matched? { assert [] + r.value.tokens == r.value.tokens; }
    }
    hide AndList, AndRun, HasStop, Passing, IsStop, Blame;
  }

  /** A member that fails after members that pass: a syntax error exactly behind a stop. */
  lemma FrontFails(w: World, zs: seq<Id>, ys: seq<Id>, loc: nat)
    requires Front(w, zs, loc) && ys != [] && !IsStop(w.g, ys[0])
    requires w.E(Call(ys[0], loc, w.acts, true)) == Some(Raised(ParseError(0)))
    ensures AndList(w, zs + ys, loc) ==
            Some(Raised(if HasStop(w.g, zs[1..]) then SyntaxFailure(0) else ParseError(0)))
  {
    assert zs + ys == zs + [ys[0]] + ys[1..];
    FrontThen(w, zs, ys[0], ys[1..], loc);
    hide AndList, AndRun, HasStop, Passing, IsStop;
  }

  lemma FrontAppend(w: World, zs: seq<Id>, xs: seq<Id>, loc: nat)
    requires Front(w, zs, loc) && Passing(w, xs, loc)
    ensures Front(w, zs + xs, loc)
  {
    var all := (zs + xs)[1..];
    forall i | 0 <= i < |all| ensures w.E(Call(all[i], loc, w.acts, true)) == Some(Matched(loc, [])) {
      if i < |zs| - 1 { assert all[i] == zs[1..][i]; } else { assert all[i] == xs[i - (|zs| - 1)]; }
    }
  }

  /** The member passes and has nothing of its own to skip. */
  ghost predicate Easy(h: Shape, c: Cast, i: Id) {
    || (i in h.stops && (i in h.zs || i in h.xs || i in h.ys))
    || (i in h.zs && c.before == Passes()) || (i in h.ys && c.after == Passes())
    || (i in h.xs && i != h.xs[0] && c.inside == Passes())
  }

  lemma EasyPasses(g: Table, h: Shape, c: Cast, s: string, q: Call)
    requires Sound(h) && Staged(g, h, c) && Easy(h, c, q.id)
    ensures Meaning(g, s, q) == Some(Matched(q.loc, []))
  {
    assert q.id in AllIds(h) && (Role(h, c, q.id) == Passes() || Role(h, c, q.id) == Plain(ErrorStop));
    MemberPasses(g, h, c, s, q);
    hide Meaning, Sound, Role, Staged;
  }

  lemma EasyFront(g: Table, h: Shape, c: Cast, s: string, ids: seq<Id>, loc: nat)
    requires Sound(h) && Staged(g, h, c) && forall i :: 0 <= i < |ids| ==> Easy(h, c, ids[i])
    ensures Passing(World(g, s, Meant(g, s), true), ids, loc)
    ensures ids != [] ==> Front(World(g, s, Meant(g, s), true), ids, loc)
  {
    hide Staged, Sound, Easy, Meaning;
    forall i | 0 <= i < |ids| ensures Meaning(g, s, Call(ids[i], loc, true, true)) == Some(Matched(loc, [])) {
      EasyPasses(g, h, c, s, Call(ids[i], loc, true, true));
    }
    if ids != [] { EasyPasses(g, h, c, s, Call(ids[0], loc, true, false)); }
  }

  lemma SceneStops(g: Table, h: Shape, c: Cast, i: Id)
    requires Sound(h) && Staged(g, h, c) && (i in h.zs || i in h.xs || i in h.ys)
    requires Playable(c)
    ensures IsStop(g, i) <==> i in h.stops
  {
    assert i in AllIds(h) && Lookup(g, i) == Role(h, c, i);
  }

  lemma SceneHasStop(g: Table, h: Shape, c: Cast, ids: seq<Id>)
    requires Sound(h) && Staged(g, h, c) && forall i :: i in ids ==> i in h.zs || i in h.xs || i in h.ys
    requires Playable(c)
    ensures HasStop(g, ids) <==> StopIn(h, ids)
  {
    hide Sound, Staged, IsStop;
    forall i | 0 <= i < |ids| ensures IsStop(g, ids[i]) <==> ids[i] in h.stops {
      assert ids[i] in ids;
      SceneStops(g, h, c, ids[i]);
    }
  }

  predicate StopIn(h: Shape, ids: seq<Id>) {
    exists i :: 0 <= i < |ids| && ids[i] in h.stops
  }
}
