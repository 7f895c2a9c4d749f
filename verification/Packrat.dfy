/** The parsing engine as the library runs it: loops over mutable locations and token lists,
    a cache shared by all parses, and a switch that turns the cache on. Every entry point is
    proved to give the outcome the machine of `Grammar` gives without a cache. */
module Packrat {
  import opened Results
  import opened Grammar

  // ----- runs of the machine, seen from where they started -----

  /** Some bound is enough to run the state to this outcome. */
  ghost predicate Ends(g: Table, s: string, st: State, o: Outcome) {
    exists fuel: nat :: Drive(g, s, st, fuel) == Some(o)
  }

  /** Where a run started, and with which bound. */
  datatype Trail = Trail(origin: State, budget: nat)

  /** The run has come to `st` with `left` of its bound to spare: outcomes of `st` are outcomes of
      the origin, and the origin cannot end before `st` is reached. */
  ghost predicate On(g: Table, s: string, t: Trail, st: State, left: nat) {
    && left <= t.budget
    && (forall o :: Ends(g, s, st, o) ==> Ends(g, s, t.origin, o))
    && (Drive(g, s, t.origin, t.budget).Some? ==> Drive(g, s, st, left).Some?)
  }

  /** The bound of the run is too small for an uncached parse. */
  ghost predicate Starved(g: Table, s: string, t: Trail) {
    Drive(g, s, t.origin, t.budget).None?
  }

  lemma YieldsIsEnds(g: Table, s: string, c: Call, o: Outcome)
    ensures Yields(g, s, c, o) <==> Ends(g, s, Begin(g, s, c), o)
  {
    hide Begin, Drive;
    if Yields(g, s, c, o) {
      var f: nat :| Parse(g, s, c, f) == Some(o);
      assert Drive(g, s, Begin(g, s, c), f) == Some(o);
    }
    if Ends(g, s, Begin(g, s, c), o) {
      var f: nat :| Drive(g, s, Begin(g, s, c), f) == Some(o);
      assert Parse(g, s, c, f) == Some(o);
    }
  }

  /** One answered request moves the run on. */
  lemma Answered(g: Table, s: string, t: Trail, c: Call, k: Kont, o: Outcome, left: nat)
    requires left > 0 && On(g, s, t, Ask(c, k), left) && Yields(g, s, c, o)
    ensures On(g, s, t, Resume(g, s, k, o), left - 1)
  {
    var next := Resume(g, s, k, o);
    forall p | Ends(g, s, next, p) ensures Ends(g, s, t.origin, p) {
      AnswerThenEnd(g, s, c, k, o, p);
    }
    if Drive(g, s, t.origin, t.budget).Some? {
      AnswerFits(g, s, c, k, o, left);
    }
  }

  lemma AnswerThenEnd(g: Table, s: string, c: Call, k: Kont, o: Outcome, p: Outcome)
    requires Yields(g, s, c, o) && Ends(g, s, Resume(g, s, k, o), p)
    ensures Ends(g, s, Ask(c, k), p)
  {
    hide Begin, Resume;
    var f: nat :| Parse(g, s, c, f) == Some(o);
    var f': nat :| Drive(g, s, Resume(g, s, k, o), f') == Some(p);
    var m := if f < f' then f' else f;
    DriveMonotone(g, s, Begin(g, s, c), f, m);
    DriveMonotone(g, s, Resume(g, s, k, o), f', m);
    assert Drive(g, s, Ask(c, k), m + 1) == Some(p);
  }

  lemma AnswerFits(g: Table, s: string, c: Call, k: Kont, o: Outcome, left: nat)
    requires left > 0 && Drive(g, s, Ask(c, k), left).Some? && Yields(g, s, c, o)
    ensures Drive(g, s, Resume(g, s, k, o), left - 1).Some?
  {
    hide Begin, Resume;
    var p := Drive(g, s, Begin(g, s, c), left - 1);
    assert Parse(g, s, c, left - 1) == p;
    YieldsOne(g, s, c, o, p.value);
  }

  /** A request that cannot be answered in time starves the run. */
  lemma Unanswered(g: Table, s: string, t: Trail, c: Call, k: Kont, left: nat)
    requires On(g, s, t, Ask(c, k), left)
    requires left == 0 || Parse(g, s, c, left - 1).None?
    ensures Starved(g, s, t)
  {
    hide Begin, Resume;
    assert left > 0 ==> Parse(g, s, c, left - 1) == Drive(g, s, Begin(g, s, c), left - 1);
    assert Drive(g, s, Ask(c, k), left).None?;
  }

  lemma Ended(g: Table, s: string, t: Trail, o: Outcome, left: nat)
    requires On(g, s, t, Return(o), left)
    ensures Ends(g, s, t.origin, o)
  {
    assert Drive(g, s, Return(o), 0) == Some(o);
  }

  // ----- the cache -----

  /** A cache key: the text, the element, the place and the two flags. */
  datatype Key = Key(text: string, call: Call)

  type Cache = map<Key, Outcome>

  /** Each entry is the uncached outcome of its key, and index errors are never stored. */
  ghost predicate Sound(g: Table, cache: Cache) {
    forall k :: k in cache ==> Yields(g, k.text, k.call, cache[k]) && cache[k] != Raised(IndexFailure)
  }

  lemma StillSound(g: Table, cache: Cache, k: Key, o: Outcome)
    requires Sound(g, cache) && Yields(g, k.text, k.call, o) && o != Raised(IndexFailure)
    ensures Sound(g, cache[k := o])
  {
    hide Yields;
  }

  class Parser {
    const g: Table
    var packrat: bool
    var cache: Cache

    ghost predicate Valid()
      reads `cache
    {
      Sound(g, cache)
    }

    constructor (g: Table)
      ensures Valid() && this.g == g && !packrat && cache == map[]
    {
      this.g, packrat, cache := g, false, map[];
    }

    method EnablePackrat()
      modifies `packrat
      ensures packrat
    {
      packrat := true;
    }

    method ResetCache()
      modifies `cache
      ensures Valid() && cache == map[]
    {
      cache := map[];
    }

    /** Parse one element, through the cache if it is switched on. With or without the cache a
        result is the uncached result, and there is one whenever an uncached parse has one
        within the same bound. */
    method ParseElement(s: string, c: Call, fuel: nat) returns (r: Option<Outcome>)
      requires Valid()
      modifies `cache
      ensures Valid()
      ensures r.Some? ==> Yields(g, s, c, r.value)
      ensures r.None? ==> Parse(g, s, c, fuel).None?
      decreases fuel, 7
    {
      if packrat { r := ParseCached(s, c, fuel); } else { r := ParseNoCache(s, c, fuel); }
    }

    /** A hit changes nothing; a miss leaves its outcome behind unless it is an index error. */
    method ParseCached(s: string, c: Call, fuel: nat) returns (r: Option<Outcome>)
      requires Valid()
      modifies `cache
      ensures Valid()
      ensures r.Some? ==> Yields(g, s, c, r.value)
      ensures r.None? ==> Parse(g, s, c, fuel).None?
      ensures old(Key(s, c) in cache) ==> cache == old(cache) && r == Some(old(cache[Key(s, c)]))
      ensures r.Some? && r.value != Raised(IndexFailure) ==> Key(s, c) in cache && cache[Key(s, c)] == r.value
      decreases fuel, 6
    {
      hide Yields, Grammar.Parse;
      var lookup := Key(s, c);
      if lookup in cache {
        return Some(cache[lookup]);
      }
      r := ParseNoCache(s, c, fuel);
      if r.Some? && r.value != Raised(IndexFailure) {
        StillSound(g, cache, lookup, r.value);
        cache := cache[lookup := r.value];
      }
    }

    /** Skip leading material, apply the element's rule, then post-process and run actions. */
    method ParseNoCache(s: string, c: Call, fuel: nat) returns (r: Option<Outcome>)
      requires Valid()
      modifies `cache
      ensures Valid()
      ensures r.Some? ==> Yields(g, s, c, r.value)
      ensures r.None? ==> Parse(g, s, c, fuel).None?
      decreases fuel, 5
    {
      var n, e := Lookup(g, c.id), Env(c.id, c.loc, c.acts);
      ghost var t := Trail(Begin(g, s, c), fuel);
      var preloc, left := c.loc, fuel;
      assert Starved(g, s, t) == Parse(g, s, c, fuel).None?;
      assert On(g, s, t, t.origin, left);
      assert !(c.pre && n.callPreparse) ==> t.origin == Impl(g, s, e, c.loc);
      assert c.pre && n.callPreparse && n.ignoreExprs == [] ==> t.origin == Impl(g, s, e, White(n, s, c.loc));
      assert c.pre && n.callPreparse && n.ignoreExprs != [] ==> t.origin == Skip(g, s, e, 0, false, c.loc, ToImpl);
      hide Begin, Impl, Skip, On, Drive, Finish, Sound, Yields, Ends, Grammar.Parse, Starved;
      if c.pre && n.callPreparse {
        var p;
        p, left := PreParse(s, e, c.loc, t, fuel);
        if p.None? { return None; }
        if p.value.Raised? {
          Ended(g, s, t, p.value, left);
          YieldsIsEnds(g, s, c, p.value);
          return p;
        }
        preloc := p.value.loc;
      }
      var o := ParseImpl(s, e, preloc, t, left);
      if o.None? { return None; }
      r := Some(Finish(g, s, e, preloc, o.value));
      YieldsIsEnds(g, s, c, r.value);
    }

    /** Ask for another element's outcome in the middle of a run. */
    method Request(s: string, c: Call, ghost k: Kont, ghost t: Trail, left: nat) returns (r: Option<Outcome>)
      requires Valid() && On(g, s, t, Ask(c, k), left)
      modifies `cache
      ensures Valid()
      ensures r.Some? ==> left > 0 && On(g, s, t, Resume(g, s, k, r.value), left - 1)
      ensures r.None? ==> Starved(g, s, t)
      decreases left, 0
    {
      hide On, Yields, Resume, Sound, Grammar.Parse, Starved;
      if left == 0 {
        Unanswered(g, s, t, c, k, left);
        return None;
      }
      r := ParseElement(s, c, left - 1);
      if r.Some? {
        Answered(g, s, t, c, k, r.value, left);
      } else {
        Unanswered(g, s, t, c, k, left);
      }
    }

    method SkipIgnorables(s: string, e: Env, from: nat, ghost after: After, ghost t: Trail, fuel: nat)
        returns (r: Option<Outcome>, left: nat)
      requires Valid() && On(g, s, t, Skip(g, s, e, 0, false, from, after), fuel)
      requires Lookup(g, e.id).ignoreExprs != []
      modifies `cache
      ensures Valid() && left <= fuel
      ensures r.None? ==> Starved(g, s, t)
      ensures r.Some? && r.value.Matched? ==> On(g, s, t, Skipped(g, s, e, r.value.loc, after), left)
      ensures r.Some? && r.value.Raised? ==> On(g, s, t, SkipRaised(g, s, e, after, r.value), left)
      decreases fuel, 1
    {
      hide On, Sound, Impl, AskAgain, Done, Starved;
      var ids, loc := Lookup(g, e.id).ignoreExprs, from;
      left := fuel;
      var exprsFound := true;
      while exprsFound
        invariant Valid() && left <= fuel
        invariant On(g, s, t, if exprsFound then Skip(g, s, e, 0, false, loc, after) else Skipped(g, s, e, loc, after), left)
        decreases left, exprsFound
      {
        ghost var before := left;
        exprsFound := false;
        var i := 0;
        while i < |ids|
          invariant Valid() && left <= before && i <= |ids|
          invariant i > 0 ==> left < before
          invariant On(g, s, t, Skip(g, s, e, i, exprsFound, loc, after), left)
          decreases |ids| - i
        {
          var o := Request(s, Call(ids[i], loc, true, true), Skipping(e, i, exprsFound, loc, after), t, left);
          if o.None? { return None, left; }
          left := left - 1;
          while o.value.Matched?
            invariant Valid() && left < before && o.Some?
            invariant On(g, s, t, Resume(g, s, Skipping(e, i, exprsFound, loc, after), o.value), left)
            decreases left
          {
            loc, exprsFound := o.value.loc, true;
            o := Request(s, Call(ids[i], loc, true, true), Skipping(e, i, true, loc, after), t, left);
            if o.None? { return None, left; }
            left := left - 1;
          }
          if !o.value.exc.ParseError? { return o, left; }
          i := i + 1;
        }
      }
      return Some(Matched(loc, [])), left;
    }

    method PreParse(s: string, e: Env, loc: nat, ghost t: Trail, fuel: nat) returns (r: Option<Outcome>, left: nat)
      requires Valid()
      requires Lookup(g, e.id).ignoreExprs != [] ==> On(g, s, t, Skip(g, s, e, 0, false, loc, ToImpl), fuel)
      requires Lookup(g, e.id).ignoreExprs == [] ==> On(g, s, t, Impl(g, s, e, White(Lookup(g, e.id), s, loc)), fuel)
      modifies `cache
      ensures Valid() && left <= fuel
      ensures r.None? ==> Starved(g, s, t)
      ensures r.Some? && r.value.Matched? ==> On(g, s, t, Impl(g, s, e, r.value.loc), left)
      ensures r.Some? && r.value.Raised? ==> On(g, s, t, Return(r.value), left)
      decreases fuel, 2
    {
      hide On, Sound, Impl, Starved, Skip;
      var n, at := Lookup(g, e.id), loc;
      left := fuel;
      if n.ignoreExprs != [] {
        r, left := SkipIgnorables(s, e, loc, ToImpl, t, fuel);
        if r.None? || r.value.Raised? { return; }
        at := r.value.loc;
      }
      if n.skipWhitespace {
        var wt, instrlen := n.whiteChars, |s|;
        ghost var end := SkipWhite(wt, s, at);
        while at < instrlen && s[at] in wt
          invariant SkipWhite(wt, s, at) == end
          decreases instrlen - at
        {
          at := at + 1;
        }
      }
      r := Some(Matched(at, []));
    }

    /** Apply the rule of the element's class. */
    method ParseImpl(s: string, e: Env, loc: nat, ghost t: Trail, left: nat) returns (r: Option<Outcome>)
      requires Valid() && On(g, s, t, Impl(g, s, e, loc), left)
      modifies `cache
      ensures Valid()
      ensures r.Some? ==> Ends(g, s, t.origin, Finish(g, s, e, loc, r.value))
      ensures r.None? ==> Starved(g, s, t)
      decreases left, 4
    {
      hide On, Sound, Starved, Finish, OrNext, FirstNext, Tail;
      match Lookup(g, e.id).kind
      case Leaf(matcher) =>
        r := Some(matcher(s, loc));
        Ended(g, s, t, Finish(g, s, e, loc, r.value), left);
      case ErrorStop =>
        r := Some(Matched(loc, []));
        Ended(g, s, t, Finish(g, s, e, loc, r.value), left);
      case And(_) => r := AndImpl(s, e, loc, t, left);
      case Or(_) => r := OrImpl(s, e, loc, t, left);
      case MatchFirst(_) => r := MatchFirstImpl(s, e, loc, t, left);
      case ZeroOrMore(_) => r := RepeatImpl(s, e, loc, t, left);
      case OneOrMore(_) => r := RepeatImpl(s, e, loc, t, left);
      case Optional(_, _) => r := OptionalImpl(s, e, loc, t, left);
      case FollowedBy(_) => r := FollowedByImpl(s, e, loc, t, left);
      case NotAny(_) => r := NotAnyImpl(s, e, loc, t, left);
      case Wrapper(inner) => r := EnhanceImpl(s, e, loc, inner, t, left);
      case Forward(inner, _) => r := EnhanceImpl(s, e, loc, inner, t, left);
    }

    method AndImpl(s: string, e: Env, start: nat, ghost t: Trail, fuel: nat) returns (r: Option<Outcome>)
      requires Valid() && On(g, s, t, Impl(g, s, e, start), fuel) && Lookup(g, e.id).kind.And?
      modifies `cache
      ensures Valid()
      ensures r.Some? ==> Ends(g, s, t.origin, Finish(g, s, e, start, r.value))
      ensures r.None? ==> Starved(g, s, t)
      decreases fuel, 3
    {
      hide On, Sound, Starved, Finish;
      var exprs := Lookup(g, e.id).kind.exprs;
      if exprs == [] {
        r := Some(Raised(IndexFailure));
        Ended(g, s, t, Finish(g, s, e, start, r.value), fuel);
        return;
      }
      var o := Request(s, Call(exprs[0], start, e.acts, false), InAnd(e, start, 0, [], false), t, fuel);
      if o.None? { return None; }
      var left := fuel - 1;
      if o.value.Raised? {
        Ended(g, s, t, Finish(g, s, e, start, o.value), left);
        return o;
      }
      var loc, tokens, errorStop, i := o.value.loc, o.value.tokens, false, 1;
      assert [] + tokens == tokens;
      while i < |exprs|
        invariant Valid() && 1 <= i <= |exprs| && 0 <= left < fuel
        invariant On(g, s, t, AndNext(g, s, e, start, i, loc, tokens, errorStop), left)
        decreases |exprs| - i
      {
        if Lookup(g, exprs[i]).kind.ErrorStop? {
          errorStop, i := true, i + 1;
          continue;
        }
        o := Request(s, Call(exprs[i], loc, e.acts, true), InAnd(e, start, i, tokens, errorStop), t, left);
        if o.None? { return None; }
        left := left - 1;
        if o.value.Raised? {
          r := Some(if errorStop then Raised(Stopped(s, o.value.exc)) else o.value);
          Ended(g, s, t, Finish(g, s, e, start, r.value), left);
          return;
        }
        loc, tokens, i := o.value.loc, tokens + o.value.tokens, i + 1;
      }
      r := Some(Matched(loc, tokens));
      Ended(g, s, t, Finish(g, s, e, start, r.value), left);
    }

    /** Try every alternative, then parse the longest one; the earlier of two equally long ones wins. */
    method OrImpl(s: string, e: Env, start: nat, ghost t: Trail, fuel: nat) returns (r: Option<Outcome>)
      requires Valid() && On(g, s, t, OrNext(g, s, e, start, 0, None, None), fuel) && Lookup(g, e.id).kind.Or?
      modifies `cache
      ensures Valid()
      ensures r.Some? ==> Ends(g, s, t.origin, Finish(g, s, e, start, r.value))
      ensures r.None? ==> Starved(g, s, t)
      decreases fuel, 3
    {
      hide On, Sound, Starved, Finish;
      var exprs, left := Lookup(g, e.id).kind.exprs, fuel;
      var maxExc, best: Option<(nat, Id)> := None, None;
      var i := 0;
      while i < |exprs|
        invariant Valid() && i <= |exprs| && 0 <= left <= fuel
        invariant On(g, s, t, OrNext(g, s, e, start, i, maxExc, best), left)
        decreases |exprs| - i
      {
        var o := Request(s, Call(exprs[i], start, false, true), InOr(e, start, i, maxExc, best), t, left);
        if o.None? { return None; }
        left := left - 1;
        var loc2 := Trial(start, o.value);
        if loc2.Matched? {
          if best.None? || loc2.loc > best.value.0 { best := Some((loc2.loc, exprs[i])); }
        } else {
          maxExc := Further(maxExc, if loc2.exc.ParseError? then loc2.exc.loc else |s|);
        }
        i := i + 1;
      }
      if best.None? {
        r := Some(NoneMatched(start, maxExc));
        Ended(g, s, t, Finish(g, s, e, start, r.value), left);
      } else {
        r := Request(s, Call(best.value.1, start, e.acts, true), InTail(e, start), t, left);
        if r.Some? { Ended(g, s, t, Finish(g, s, e, start, r.value), left - 1); }
      }
    }

    method MatchFirstImpl(s: string, e: Env, start: nat, ghost t: Trail, fuel: nat) returns (r: Option<Outcome>)
      requires Valid() && On(g, s, t, FirstNext(g, s, e, start, 0, None), fuel) && Lookup(g, e.id).kind.MatchFirst?
      modifies `cache
      ensures Valid()
      ensures r.Some? ==> Ends(g, s, t.origin, Finish(g, s, e, start, r.value))
      ensures r.None? ==> Starved(g, s, t)
      decreases fuel, 3
    {
      hide On, Sound, Starved, Finish;
      var exprs, left := Lookup(g, e.id).kind.exprs, fuel;
      var maxExc, i := None, 0;
      while i < |exprs|
        invariant Valid() && i <= |exprs| && 0 <= left <= fuel
        invariant On(g, s, t, FirstNext(g, s, e, start, i, maxExc), left)
        decreases |exprs| - i
      {
        var o := Request(s, Call(exprs[i], start, e.acts, true), InFirst(e, start, i, maxExc), t, left);
        if o.None? { return None; }
        left := left - 1;
        if o.value.Matched? || FailureAt(s, o.value.exc).None? {
          Ended(g, s, t, Finish(g, s, e, start, o.value), left);
          return o;
        }
        maxExc, i := Further(maxExc, FailureAt(s, o.value.exc).value), i + 1;
      }
      r := Some(NoneMatched(start, maxExc));
      Ended(g, s, t, Finish(g, s, e, start, r.value), left);
    }

    /** Zero or more, and one or more, repetitions: only the first round tells them apart. */
    method RepeatImpl(s: string, e: Env, start: nat, ghost t: Trail, fuel: nat) returns (r: Option<Outcome>)
      requires Valid() && On(g, s, t, Impl(g, s, e, start), fuel)
      requires Lookup(g, e.id).kind.ZeroOrMore? || Lookup(g, e.id).kind.OneOrMore?
      modifies `cache
      ensures Valid()
      ensures r.Some? ==> Ends(g, s, t.origin, Finish(g, s, e, start, r.value))
      ensures r.None? ==> Starved(g, s, t)
      decreases fuel, 3
    {
      hide On, Sound, Starved, Finish, Skip;
      var expr, hasIgnoreExprs := Repeated(g, e.id), Lookup(g, e.id).ignoreExprs != [];
      var loc, tokens, left, first := start, [], fuel, true;
      var o := Request(s, Call(expr, start, e.acts, false), InRepeat(e, start, start, [], true), t, left);
      if o.None? { return None; }
      left := left - 1;
      while o.value.Matched?
        invariant Valid() && 0 <= left < fuel && o.Some?
        invariant On(g, s, t, Resume(g, s, InRepeat(e, start, loc, tokens, first), o.value), left)
        decreases left
      {
        loc, tokens, first := o.value.loc, tokens + o.value.tokens, false;
        var preloc := loc;
        if hasIgnoreExprs {
          var p;
          p, left := SkipIgnorables(s, e, loc, ToRepeat(start, tokens, loc), t, left);
          if p.None? { return None; }
          if p.value.Raised? {
            r := Some(if p.value.exc.IndexFailure? then Matched(loc, tokens) else p.value);
            Ended(g, s, t, Finish(g, s, e, start, r.value), left);
            return;
          }
          preloc := p.value.loc;
        }
        o := Request(s, Call(expr, preloc, e.acts, true), InRepeat(e, start, loc, tokens, false), t, left);
        if o.None? { return None; }
        left := left - 1;
      }
      if FailureAt(s, o.value.exc).Some? && !(first && Lookup(g, e.id).kind.OneOrMore?) {
        r := Some(Matched(loc, tokens));
      } else {
        r := o;
      }
      Ended(g, s, t, Finish(g, s, e, start, r.value), left);
    }

    method OptionalImpl(s: string, e: Env, start: nat, ghost t: Trail, left: nat) returns (r: Option<Outcome>)
      requires Valid() && On(g, s, t, Impl(g, s, e, start), left) && Lookup(g, e.id).kind.Optional?
      modifies `cache
      ensures Valid()
      ensures r.Some? ==> Ends(g, s, t.origin, Finish(g, s, e, start, r.value))
      ensures r.None? ==> Starved(g, s, t)
      decreases left, 3
    {
      hide On, Sound, Starved, Finish;
      r := Request(s, Call(Lookup(g, e.id).kind.expr, start, e.acts, false), InOptional(e, start), t, left);
      if r.None? { return; }
      if r.value.Raised? && FailureAt(s, r.value.exc).Some? {
        r := Some(Matched(start, DefaultTokens(g, e.id)));
      }
      Ended(g, s, t, Finish(g, s, e, start, r.value), left - 1);
    }

    method FollowedByImpl(s: string, e: Env, start: nat, ghost t: Trail, left: nat) returns (r: Option<Outcome>)
      requires Valid() && On(g, s, t, Impl(g, s, e, start), left) && Lookup(g, e.id).kind.FollowedBy?
      modifies `cache
      ensures Valid()
      ensures r.Some? ==> Ends(g, s, t.origin, Finish(g, s, e, start, r.value))
      ensures r.None? ==> Starved(g, s, t)
      decreases left, 3
    {
      hide On, Sound, Starved, Finish;
      var o := Request(s, Call(Lookup(g, e.id).kind.expr, start, false, true), InAhead(e, start), t, left);
      if o.None? { return None; }
      var p := Trial(start, o.value);
      r := Some(if p.Matched? then Matched(start, []) else p);
      Ended(g, s, t, Finish(g, s, e, start, r.value), left - 1);
    }

    method NotAnyImpl(s: string, e: Env, start: nat, ghost t: Trail, left: nat) returns (r: Option<Outcome>)
      requires Valid() && On(g, s, t, Impl(g, s, e, start), left) && Lookup(g, e.id).kind.NotAny?
      modifies `cache
      ensures Valid()
      ensures r.Some? ==> Ends(g, s, t.origin, Finish(g, s, e, start, r.value))
      ensures r.None? ==> Starved(g, s, t)
      decreases left, 3
    {
      hide On, Sound, Starved, Finish;
      var o := Request(s, Call(Lookup(g, e.id).kind.expr, start, false, true), InNot(e, start), t, left);
      if o.None? { return None; }
      r := Some(if o.value.Matched? then Raised(ParseError(start)) else Matched(start, []));
      Ended(g, s, t, Finish(g, s, e, start, r.value), left - 1);
    }

    /** Hand over to the enclosed element; there may be none yet. */
    method EnhanceImpl(s: string, e: Env, start: nat, expr: Option<Id>, ghost t: Trail, left: nat)
        returns (r: Option<Outcome>)
      requires Valid() && On(g, s, t, Tail(g, s, e, start, expr), left)
      modifies `cache
      ensures Valid()
      ensures r.Some? ==> Ends(g, s, t.origin, Finish(g, s, e, start, r.value))
      ensures r.None? ==> Starved(g, s, t)
      decreases left, 3
    {
      hide On, Sound, Starved, Finish;
      if expr.None? {
        r := Some(Raised(ParseError(start)));
        Ended(g, s, t, Finish(g, s, e, start, r.value), left);
      } else {
        r := Request(s, Call(expr.value, start, e.acts, false), InTail(e, start), t, left);
        if r.Some? { Ended(g, s, t, Finish(g, s, e, start, r.value), left - 1); }
      }
    }
  }
}
