/** Two activations side by side: elements with the same definition, in tables that agree on
    where the error stops are, go through the same requests to the same outcome. */
module Mirrors {
  import opened Results
  import opened Grammar
  import opened Meanings
  import opened Splice

  /** The two definitions are the same up to whether a forward has been streamlined. */
  ghost predicate SameRule(n: Node, m: Node) {
    n == m || (n.kind.Forward? && m.kind.Forward? && m == n.(kind := Forward(n.kind.inner, m.kind.streamlined)))
  }

  ghost predicate SameStops(g: Table, g': Table) {
    forall id :: IsStop(g, id) == IsStop(g', id)
  }

  /** An activation in each of two tables. They are compared exactly, or up to index errors,
      since these depend on the place of the call. */
  datatype Pair = Pair(g: Table, g': Table, s: string, e: Env, e': Env, exact: bool)

  ghost predicate Paired(p: Pair) {
    && SameRule(Lookup(p.g, p.e.id), Lookup(p.g', p.e'.id)) && SameStops(p.g, p.g')
    && p.e.acts == p.e'.acts && (p.exact ==> p.e.loc0 == p.e'.loc0)
  }

  ghost predicate Agree(p: Pair, o: Outcome, o': Outcome) {
    if p.exact then o == o' else Settle(p.s, Some(o)) == Settle(p.s, Some(o'))
  }

  function WithEnv(k: Kont, e: Env): Kont {
    match k
    case Skipping(_, i, found, loc, after) => Skipping(e, i, found, loc, after)
    case InAnd(_, start, i, tokens, stop) => InAnd(e, start, i, tokens, stop)
    case InOr(_, start, i, furthest, best) => InOr(e, start, i, furthest, best)
    case InFirst(_, start, i, furthest) => InFirst(e, start, i, furthest)
    case InRepeat(_, start, at, tokens, first) => InRepeat(e, start, at, tokens, first)
    case InOptional(_, start) => InOptional(e, start)
    case InAhead(_, start) => InAhead(e, start)
    case InNot(_, start) => InNot(e, start)
    case InTail(_, start) => InTail(e, start)
  }

  ghost predicate Mirrored(p: Pair, st: State, st': State) {
    match st
    case Return(o) => st'.Return? && Agree(p, o, st'.outcome)
    case Ask(c, k) => k.env == p.e && st' == Ask(c, WithEnv(k, p.e'))
  }

  lemma MirrorDone(p: Pair, start: nat, o: Outcome)
    requires Paired(p)
    ensures Mirrored(p, Done(p.g, p.s, p.e, start, o), Done(p.g', p.s, p.e', start, o))
  {
    hide SameStops;
  }

  lemma MirrorDoneAll(p: Pair, start: nat)
    requires Paired(p)
    ensures forall o :: Mirrored(p, Done(p.g, p.s, p.e, start, o), Done(p.g', p.s, p.e', start, o))
  {
    hide Paired, Mirrored, Done;
    forall o ensures Mirrored(p, Done(p.g, p.s, p.e, start, o), Done(p.g', p.s, p.e', start, o)) {
      MirrorDone(p, start, o);
    }
  }

  lemma SameLists(p: Pair)
    requires Paired(p)
    ensures Exprs(p.g, p.e.id) == Exprs(p.g', p.e'.id)
    ensures Repeated(p.g, p.e.id) == Repeated(p.g', p.e'.id)
    ensures DefaultTokens(p.g, p.e.id) == DefaultTokens(p.g', p.e'.id)
    ensures forall i: nat :: Alternative(p.g, p.e.id, i) == Alternative(p.g', p.e'.id, i)
  {
    hide SameStops;
  }

  lemma {:induction false} MirrorAndNext(p: Pair, start: nat, i: nat, loc: nat, tokens: Tokens, stop: bool)
    requires Paired(p)
    ensures Mirrored(p, AndNext(p.g, p.s, p.e, start, i, loc, tokens, stop),
                     AndNext(p.g', p.s, p.e', start, i, loc, tokens, stop))
    decreases |Exprs(p.g, p.e.id)| - i
  {
    SameLists(p);
    MirrorDone(p, start, Matched(loc, tokens));
    var exprs := Exprs(p.g, p.e.id);
    if i < |exprs| {
      assert IsStop(p.g, exprs[i]) == IsStop(p.g', exprs[i]);
      if IsStop(p.g, exprs[i]) { MirrorAndNext(p, start, i + 1, loc, tokens, true); }
    }
    hide Done, Exprs, SameRule, SameStops, Lookup;
  }

  lemma MirrorOrNext(p: Pair, start: nat, i: nat, at: Option<nat>, best: Option<(nat, Id)>)
    requires Paired(p)
    ensures Mirrored(p, OrNext(p.g, p.s, p.e, start, i, at, best), OrNext(p.g', p.s, p.e', start, i, at, best))
  {
    SameLists(p);
    MirrorDone(p, start, NoneMatched(start, at));
    hide Done, Exprs, SameRule, SameStops, Lookup;
  }

  lemma MirrorFirstNext(p: Pair, start: nat, i: nat, at: Option<nat>)
    requires Paired(p)
    ensures Mirrored(p, FirstNext(p.g, p.s, p.e, start, i, at), FirstNext(p.g', p.s, p.e', start, i, at))
  {
    SameLists(p);
    MirrorDone(p, start, NoneMatched(start, at));
    hide Done, Exprs, SameRule, SameStops, Lookup;
  }

  lemma MirrorTail(p: Pair, start: nat, inner: Option<Id>)
    requires Paired(p)
    ensures Mirrored(p, Tail(p.g, p.s, p.e, start, inner), Tail(p.g', p.s, p.e', start, inner))
  {
    MirrorDone(p, start, Raised(ParseError(start)));
    hide Done, SameRule, SameStops, Lookup;
  }

  lemma MirrorImpl(p: Pair, start: nat)
    requires Paired(p)
    ensures Mirrored(p, Impl(p.g, p.s, p.e, start), Impl(p.g', p.s, p.e', start))
  {
    var k := Lookup(p.g, p.e.id).kind;
    MirrorDoneAll(p, start);
    MirrorOrNext(p, start, 0, None, None);
    MirrorFirstNext(p, start, 0, None);
    if k.Wrapper? || k.Forward? { MirrorTail(p, start, k.inner); }
    hide Done, OrNext, FirstNext, Tail, SameStops, Agree;
  }

  lemma MirrorSkipped(p: Pair, loc: nat, after: After)
    requires Paired(p)
    ensures Mirrored(p, Skipped(p.g, p.s, p.e, loc, after), Skipped(p.g', p.s, p.e', loc, after))
  {
    var n := Lookup(p.g, p.e.id);
    SameLists(p);
    assert White(n, p.s, loc) == White(Lookup(p.g', p.e'.id), p.s, loc);
    MirrorImpl(p, White(n, p.s, loc));
    hide Impl, White, Repeated, SameRule, SameStops, Agree, Lookup;
  }

  lemma MirrorSkip(p: Pair, i: nat, found: bool, loc: nat, after: After)
    requires Paired(p)
    ensures Mirrored(p, Skip(p.g, p.s, p.e, i, found, loc, after), Skip(p.g', p.s, p.e', i, found, loc, after))
  {
    assert Lookup(p.g, p.e.id).ignoreExprs == Lookup(p.g', p.e'.id).ignoreExprs;
    MirrorSkipped(p, loc, after);
    hide Skipped, SameRule, SameStops, Agree, Lookup;
  }

  lemma MirrorBegin(p: Pair, c: Call, c': Call)
    requires Paired(p) && c.pre == c'.pre && c.loc == c'.loc
    requires p.e == Env(c.id, c.loc, c.acts) && p.e' == Env(c'.id, c'.loc, c'.acts)
    ensures Mirrored(p, Begin(p.g, p.s, c), Begin(p.g', p.s, c'))
  {
    var n := Lookup(p.g, c.id);
    assert White(n, p.s, c.loc) == White(Lookup(p.g', c'.id), p.s, c.loc);
    MirrorImpl(p, c.loc);
    MirrorImpl(p, White(n, p.s, c.loc));
    MirrorSkip(p, 0, false, c.loc, ToImpl);
    hide Impl, Skip, White, SameStops, Agree, Mirrored;
  }

  // ----- answers -----

  lemma MirrorSkipping(p: Pair, k: Kont, o: Outcome)
    requires Paired(p) && k.env == p.e && k.Skipping?
    ensures Mirrored(p, Resume(p.g, p.s, k, o), Resume(p.g', p.s, WithEnv(k, p.e'), o))
  {
    if o.Matched? { MirrorSkip(p, k.i, true, o.loc, k.after); }
    MirrorSkip(p, k.i + 1, k.found, k.loc, k.after);
    if k.after.ToRepeat? { MirrorDoneAll(p, k.after.start); }
    hide Skip, Done, Paired;
  }

  lemma MirrorInAnd(p: Pair, k: Kont, o: Outcome)
    requires Paired(p) && k.env == p.e && k.InAnd?
    ensures Mirrored(p, Resume(p.g, p.s, k, o), Resume(p.g', p.s, WithEnv(k, p.e'), o))
  {
    if o.Matched? { MirrorAndNext(p, k.start, k.i + 1, o.loc, k.tokens + o.tokens, k.stop); }
    MirrorDoneAll(p, k.start);
    hide AndNext, Done, Paired, Mirrored;
  }

  lemma MirrorInOr(p: Pair, k: Kont, o: Outcome)
    requires Paired(p) && k.env == p.e && k.InOr?
    ensures Mirrored(p, Resume(p.g, p.s, k, o), Resume(p.g', p.s, WithEnv(k, p.e'), o))
  {
    SameLists(p);
    var t := Tallied(p.s, k.start, Alternative(p.g, p.e.id, k.i), o, Tally(k.furthest, k.best));
    MirrorOrNext(p, k.start, k.i + 1, t.furthest, t.best);
    hide OrNext, Paired, Mirrored, Alternative;
  }

  lemma MirrorInFirst(p: Pair, k: Kont, o: Outcome)
    requires Paired(p) && k.env == p.e && k.InFirst?
    ensures Mirrored(p, Resume(p.g, p.s, k, o), Resume(p.g', p.s, WithEnv(k, p.e'), o))
  {
    MirrorDoneAll(p, k.start);
    if o.Raised? && FailureAt(p.s, o.exc).Some? {
      MirrorFirstNext(p, k.start, k.i + 1, Further(k.furthest, FailureAt(p.s, o.exc).value));
    }
    hide FirstNext, Done, Paired, Mirrored;
  }

  lemma MirrorInRepeat(p: Pair, k: Kont, o: Outcome)
    requires Paired(p) && k.env == p.e && k.InRepeat?
    ensures Mirrored(p, Resume(p.g, p.s, k, o), Resume(p.g', p.s, WithEnv(k, p.e'), o))
  {
    SameLists(p);
    MirrorDoneAll(p, k.start);
    if o.Matched? { MirrorSkip(p, 0, false, o.loc, ToRepeat(k.start, k.tokens + o.tokens, o.loc)); }
    hide Skip, Done, Repeated, SameStops, Agree;
  }

  lemma MirrorRest(p: Pair, k: Kont, o: Outcome)
    requires Paired(p) && k.env == p.e && (k.InOptional? || k.InAhead? || k.InNot? || k.InTail?)
    ensures Mirrored(p, Resume(p.g, p.s, k, o), Resume(p.g', p.s, WithEnv(k, p.e'), o))
  {
    SameLists(p);
    MirrorDoneAll(p, k.start);
    hide Done, DefaultTokens, Paired, Mirrored;
  }

  lemma MirrorResume(p: Pair, k: Kont, o: Outcome)
    requires Paired(p) && k.env == p.e
    ensures Mirrored(p, Resume(p.g, p.s, k, o), Resume(p.g', p.s, WithEnv(k, p.e'), o))
  {
    hide Paired, Mirrored, Resume;
    match k
    case Skipping(_, _, _, _, _) => MirrorSkipping(p, k, o);
    case InAnd(_, _, _, _, _) => MirrorInAnd(p, k, o);
    case InOr(_, _, _, _, _) => MirrorInOr(p, k, o);
    case InFirst(_, _, _, _) => MirrorInFirst(p, k, o);
    case InRepeat(_, _, _, _, _) => MirrorInRepeat(p, k, o);
    case _ => MirrorRest(p, k, o);
  }

  // ----- whole activations -----

  lemma {:induction false} MirrorConsult(p: Pair, E: Oracle, st: State, st': State, n: nat)
    requires Paired(p) && Mirrored(p, st, st')
    ensures var r, r' := Consult(p.g, p.s, E, st, n), Consult(p.g', p.s, E, st', n);
            r.Some? == r'.Some? && (r.Some? ==> Agree(p, r.value, r'.value))
    decreases n
  {
    hide Paired, Resume, Agree;
    if st.Ask? && n > 0 && E(st.call).Some? {
      var o := E(st.call).value;
      MirrorResume(p, st.kont, o);
      MirrorConsult(p, E, Resume(p.g, p.s, st.kont, o), Resume(p.g', p.s, st'.kont, o), n - 1);
    }
  }

  lemma MirrorValue(p: Pair, E: Oracle, st: State, st': State)
    requires Paired(p) && Mirrored(p, st, st')
    ensures var r, r' := Value(p.g, p.s, E, st), Value(p.g', p.s, E, st');
            r.Some? == r'.Some? && (r.Some? ==> Agree(p, r.value, r'.value))
  {
    hide Paired, Mirrored, Consult, Agree;
    forall n: nat ensures Consult(p.g, p.s, E, st, n).Some? == Consult(p.g', p.s, E, st', n).Some? {
      MirrorConsult(p, E, st, st', n);
    }
    if n: nat :| Consult(p.g, p.s, E, st, n).Some? {
      MirrorConsult(p, E, st, st', n);
      ValueIs(p.g, p.s, E, st, n);
      ValueIs(p.g', p.s, E, st', n);
    }
  }

  /** An element with the same definition comes to the same outcome on the same answers. */
  lemma SameValue(g: Table, g': Table, s: string, E: Oracle, c: Call, c': Call)
    requires SameStops(g, g') && SameRule(Lookup(g, c.id), Lookup(g', c'.id)) && c' == c.(id := c'.id)
    ensures Value(g, s, E, Begin(g, s, c)) == Value(g', s, E, Begin(g', s, c'))
  {
    var p := Pair(g, g', s, Env(c.id, c.loc, c.acts), Env(c'.id, c'.loc, c'.acts), true);
    MirrorBegin(p, c, c');
    hide Value, Begin, SameRule, SameStops;
    MirrorValue(p, E, Begin(g, s, c), Begin(g', s, c'));
  }

  /** Where an element was called only matters for index errors. */
  lemma SameButPlace(g: Table, s: string, E: Oracle, id: Id, a: nat, b: nat, acts: bool, start: nat)
    ensures Settle(s, Value(g, s, E, Impl(g, s, Env(id, a, acts), start))) ==
            Settle(s, Value(g, s, E, Impl(g, s, Env(id, b, acts), start)))
  {
    var p := Pair(g, g, s, Env(id, a, acts), Env(id, b, acts), false);
    MirrorImpl(p, start);
    hide Value, Impl;
    MirrorValue(p, E, Impl(g, s, p.e, start), Impl(g, s, p.e', start));
  }
}
