/** Every clause of the condition for opening a nested list is needed: for each shape that
    violates it there is a grammar of that shape whose parses change. */
module StreamlineLimits {
  import opened Results
  import opened Grammar
  import opened Meanings
  import opened Splice
  import opened Mirrors
  import opened Leading
  import opened Streamline
  import opened Scenes

  // ----- sequences without members -----

  const Passive := Cast(Passes(), Passes(), Passes(), {})

  lemma EmptyBefore(g: Table, h: Shape)
    requires Sound(h) && h.k.And? && h.xs == [] && IsBefore(g, h, Passive)
    ensures var r := Meaning(g, "", Call(0, 0, true, true)); r.Some? && r.value.Raised?
  {
    var w, zs, r := World(g, "", Meant(g, ""), true), h.zs, Meaning(g, "", Call(1, 0, true, h.zs != []));
    EasyFront(g, h, Passive, "", zs, 0);
    NestedAt(g, h, Passive, "", Call(1, 0, true, zs != []));
    assert r.Some? && r.value.Raised?;
    assert !IsStop(g, 1);
    OuterAt(g, h, "", 0, zs + [1] + h.ys);
    hide Meaning, AndRun, Staged, Sound, HasStop, IsStop;
    if zs == [] {
      assert zs + [1] + h.ys == [1] + h.ys;
    } else {
      FrontThen(w, zs, 1, h.ys, 0);
    }
  }

  lemma EmptyAfter(g: Table, h: Shape)
    requires Sound(h) && h.k.And? && h.xs == [] && h.zs + h.ys != [] && IsAfter(g, h, Passive)
    ensures Meaning(g, "", Call(0, 0, true, true)) == Some(Matched(0, []))
  {
    var w, ids := World(g, "", Meant(g, ""), true), h.zs + h.ys;
    assert h.zs + h.xs + h.ys == ids;
    OuterAt(g, h, "", 0, ids);
    assert forall i :: 0 <= i < |ids| ==> ids[i] in h.zs || ids[i] in h.ys;
    hide Sound, AndList, Role;
    EasyFront(g, h, Passive, "", ids, 0);
    hide Meaning, Staged, Easy;
    PassList(w, ids, 0);
  }

  /** A nested sequence needs members. */
  lemma EmptySequence(h: Shape)
    requires Sound(h) && h.k.And? && h.xs == [] && h.zs + h.ys != []
    ensures CanChange(h)
  {
    SceneStands(h, Passive);
    hide Scene, SceneAfter, Meaning, Sound, IsBefore, IsAfter, CanChange;
    EmptyBefore(Scene(h, Passive), h);
    EmptyAfter(SceneAfter(h, Passive), h);
    SceneChanges(h, Passive, "", 0);
  }

  // ----- stops -----

  /** The members after the nested list fail, or all members inside it fail. */
  const Blaming := Cast(Passes(), Passes(), Fails(), {})
  const Broken := Cast(Passes(), Fails(), Fails(), {})

  /** At the end of the text nothing is skipped. */
  lemma LeadAtEnd(g: Table, h: Shape, c: Cast, acts: bool, pre: bool)
    requires Sound(h) && Staged(g, h, c) && h.xs != [] && (h.xs[0] in h.stops || c.inside == Passes()) && c.fatal == {}
    ensures Meaning(g, "", Call(h.xs[0], 0, acts, pre)) == Some(Matched(0, []))
  {
    if h.xs[0] in h.stops {
      EasyPasses(g, h, c, "", Call(h.xs[0], 0, acts, pre));
    } else {
      LeadPasses(g, h, c, "", Call(h.xs[0], 0, acts, pre));
    }
    hide Meaning, Sound, Staged;
  }

  lemma InsideAtEnd(g: Table, h: Shape, c: Cast)
    requires Sound(h) && Staged(g, h, c) && h.xs != [] && c.inside == Passes() && c.fatal == {}
    ensures var w := World(g, "", Meant(g, ""), true); Front(w, h.xs, 0) && Passing(w, h.xs, 0)
  {
    var w, rest := World(g, "", Meant(g, ""), true), h.xs[1..];
    assert forall i :: 0 <= i < |rest| ==> rest[i] in h.xs && rest[i] != h.xs[0];
    EasyFront(g, h, c, "", rest, 0);
    LeadAtEnd(g, h, c, true, false);
    LeadAtEnd(g, h, c, true, true);
    hide Meaning, Sound, Staged;
    forall i | 0 <= i < |h.xs| ensures w.E(Call(h.xs[i], 0, true, true)) == Some(Matched(0, [])) {
      if i > 0 { assert h.xs[i] == rest[i - 1]; }
    }
  }

  lemma NestedAtEnd(g: Table, h: Shape, c: Cast, pre: bool)
    requires Sound(h) && h.k.And? && Staged(g, h, c) && h.xs != [] && c.inside == Passes() && c.fatal == {}
    ensures Meaning(g, "", Call(1, 0, true, pre)) == Some(Matched(0, [])) && !IsStop(g, 1)
  {
    InsideAtEnd(g, h, c);
    NestedAt(g, h, c, "", Call(1, 0, true, pre));
    assert Lookup(g, 1) == h.n;
    hide Meaning, Staged, Front, Passing, AndList;
    PassListFront(World(g, "", Meant(g, ""), true), h.xs, 0);
  }

  lemma PassListFront(w: World, ids: seq<Id>, loc: nat)
    requires Front(w, ids, loc)
    ensures AndList(w, ids, loc) == Some(Matched(loc, []))
  {
    PassList(w, ids, loc);
  }

  /** What is in front of `ys`, before and after. */
  lemma FrontBefore(g: Table, h: Shape, c: Cast)
    requires Sound(h) && h.k.And? && Staged(g, h, c) && h.xs != [] && c.before == c.inside == Passes() && c.fatal == {}
    ensures Front(World(g, "", Meant(g, ""), true), h.zs + [1], 0)
  {
    var w := World(g, "", Meant(g, ""), true);
    NestedAtEnd(g, h, c, true);
    NestedAtEnd(g, h, c, false);
    EasyFront(g, h, c, "", h.zs, 0);
    hide Meaning, Sound, Staged, Front;
    if h.zs == [] {
      assert h.zs + [1] == [1];
      FrontOne(w, 1, 0);
    } else {
      FrontAppend(w, h.zs, [1], 0);
    }
  }

  lemma FrontOne(w: World, id: Id, loc: nat)
    requires w.E(Call(id, loc, w.acts, false)) == Some(Matched(loc, []))
    ensures Front(w, [id], loc)
  {
  }

  lemma FrontAfter(g: Table, h: Shape, c: Cast)
    requires Sound(h) && h.k.And? && Staged(g, h, c) && h.xs != [] && c.before == c.inside == Passes() && c.fatal == {}
    ensures Front(World(g, "", Meant(g, ""), true), h.zs + h.xs, 0)
  {
    var w := World(g, "", Meant(g, ""), true);
    InsideAtEnd(g, h, c);
    EasyFront(g, h, c, "", h.zs, 0);
    hide Meaning, Sound, Staged, Front, Passing;
    if h.zs == [] { assert h.zs + h.xs == h.xs; } else { FrontAppend(w, h.zs, h.xs, 0); }
  }

  /** A stop inside the nested sequence is in force for `ys` only after opening. */
  ghost predicate StopLeaks(h: Shape) {
    && h.xs != [] && StopIn(h, h.xs[1..]) && h.ys != [] && h.ys[0] !in h.stops
    && (h.zs != [] ==> !StopIn(h, h.zs[1..]))
  }

  lemma LeakAt(g: Table, h: Shape, front: seq<Id>)
    requires Sound(h) && h.k.And? && Staged(g, h, Blaming) && StopLeaks(h) && Lookup(g, 0) == Plain(WithExprs(h.k, front + h.ys))
    requires Front(World(g, "", Meant(g, ""), true), front, 0)
    ensures Meaning(g, "", Call(0, 0, true, true)) ==
            Some(Raised(if HasStop(g, front[1..]) then SyntaxFailure(0) else ParseError(0)))
  {
    var w, y := World(g, "", Meant(g, ""), true), h.ys[0];
    assert y in h.ys && y in AllIds(h) && Role(h, Blaming, y) == Fails() && Lookup(g, y) == Role(h, Blaming, y);
    FailMeans(g, "", Call(y, 0, true, true));
    OuterAt(g, h, "", 0, front + h.ys);
    hide Meaning, Sound, Staged, Front, AndList, HasStop;
    FrontFails(w, front, h.ys, 0);
  }

  lemma LeakingStop(h: Shape)
    requires Sound(h) && h.k.And? && StopLeaks(h)
    ensures CanChange(h)
  {
    var g, g' := Scene(h, Blaming), SceneAfter(h, Blaming);
    SceneStands(h, Blaming);
    hide Scene, SceneAfter, Meaning, CanChange;
    FrontBefore(g, h, Blaming);
    FrontAfter(g', h, Blaming);
    LeakAt(g, h, h.zs + [1]);
    LeakAt(g', h, h.zs + h.xs);
    LeakStops(g, g', h);
    hide Sound, IsBefore, IsAfter, StopLeaks, Front;
    SceneChanges(h, Blaming, "", 0);
  }

  lemma LeakStops(g: Table, g': Table, h: Shape)
    requires Sound(h) && Staged(g, h, Blaming) && Staged(g', h, Blaming) && StopLeaks(h) && h.k.And?
    ensures !HasStop(g, (h.zs + [1])[1..]) && HasStop(g', (h.zs + h.xs)[1..])
  {
    var a, b := (h.zs + [1])[1..], (h.zs + h.xs)[1..];
    assert !IsStop(g, 1) by { assert Lookup(g, 1) == h.n; }
    if h.zs != [] {
      SceneHasStop(g, h, Blaming, h.zs[1..]);
      assert a == h.zs[1..] + [1] + [] && b == h.zs[1..] + [h.xs[0]] + h.xs[1..];
      StopAppend(g, h.zs[1..], [1]);
      StopAppend(g', h.zs[1..] + [h.xs[0]], h.xs[1..]);
      HasStopCons(g, [1]);
    } else {
      assert a == [] && b == h.xs[1..];
    }
    SceneHasStop(g', h, Blaming, h.xs[1..]);
    hide Sound, Staged, IsStop, HasStop;
  }

  /** A stop as the first member of a nested sequence in a later place: before, it is only asked for;
      after, it is in force for whatever comes next. */
  ghost predicate StopFirst(h: Shape) {
    && h.zs != [] && h.xs != [] && h.xs[0] in h.stops && !StopIn(h, h.zs[1..])
    && h.xs[1..] + h.ys != [] && (h.xs[1..] + h.ys)[0] !in h.stops
  }

  lemma BrokenFails(g: Table, h: Shape, y: Id, acts: bool)
    requires Sound(h) && Staged(g, h, Broken) && y !in h.stops && (y in h.ys || (y in h.xs && y != h.xs[0]))
    ensures Meaning(g, "", Call(y, 0, acts, true)) == Some(Raised(ParseError(0))) && !IsStop(g, y)
  {
    assert y in AllIds(h) && Role(h, Broken, y) == Fails() && Lookup(g, y) == Role(h, Broken, y);
    FailMeans(g, "", Call(y, 0, acts, true));
    hide Meaning, Sound, Staged;
  }

  lemma StopFirstNested(g: Table, h: Shape)
    requires Sound(h) && h.k.And? && Staged(g, h, Broken) && StopFirst(h)
    ensures Meaning(g, "", Call(1, 0, true, true)) ==
            Some(if h.xs[1..] == [] then Matched(0, []) else Raised(ParseError(0)))
    ensures !IsStop(g, 1)
  {
    var w, xs := World(g, "", Meant(g, ""), true), h.xs;
    LeadAtEnd(g, h, Broken, true, false);
    FrontOne(w, xs[0], 0);
    NestedAt(g, h, Broken, "", Call(1, 0, true, true));
    assert Lookup(g, 1) == h.n;
    if xs[1..] == [] {
      assert xs == [xs[0]];
      PassListFront(w, xs, 0);
    } else {
      BrokenFails(g, h, xs[1], true);
      assert xs == [xs[0]] + xs[1..];
      FrontFails(w, [xs[0]], xs[1..], 0);
      assert !HasStop(g, [xs[0]][1..]);
    }
    hide Meaning, Staged, AndList, Front;
  }

  lemma StopFirstBefore(g: Table, h: Shape)
    requires Sound(h) && h.k.And? && IsBefore(g, h, Broken) && StopFirst(h)
    ensures Meaning(g, "", Call(0, 0, true, true)) == Some(Raised(ParseError(0)))
  {
    var w := World(g, "", Meant(g, ""), true);
    OuterAt(g, h, "", 0, h.zs + [1] + h.ys);
    SceneHasStop(g, h, Broken, h.zs[1..]);
    StopFirstNested(g, h);
    EasyZs(g, h, Broken, "");
    if h.xs[1..] == [] { BrokenFails(g, h, h.ys[0], true); }
    hide Meaning, Sound, Staged, AndList, HasStop, IsStop, Front;
    if h.xs[1..] == [] {
      UnstoppedFront(w, h.zs, 1);
      FrontFails(w, h.zs + [1], h.ys, 0);
    } else {
      FrontThen(w, h.zs, 1, h.ys, 0);
    }
  }

  lemma UnstoppedFront(w: World, zs: seq<Id>, x: Id)
    requires Front(w, zs, 0) && !IsStop(w.g, x) && w.E(Call(x, 0, w.acts, true)) == Some(Matched(0, []))
    ensures Front(w, zs + [x], 0) && HasStop(w.g, (zs + [x])[1..]) == HasStop(w.g, zs[1..])
  {
    FrontAppend(w, zs, [x], 0);
    assert (zs + [x])[1..] == zs[1..] + [x];
    StopAppend(w.g, zs[1..], [x]);
    HasStopCons(w.g, [x]);
  }

  lemma StopFirstAfter(g: Table, h: Shape)
    requires Sound(h) && h.k.And? && IsAfter(g, h, Broken) && StopFirst(h)
    ensures Meaning(g, "", Call(0, 0, true, true)) == Some(Raised(SyntaxFailure(0)))
  {
    var w, x, rest := World(g, "", Meant(g, ""), true), h.xs[0], h.xs[1..] + h.ys;
    assert rest[0] in h.ys || (rest[0] in h.xs && rest[0] != x);
    assert h.zs + h.xs + h.ys == h.zs + [x] + rest;
    OuterAt(g, h, "", 0, h.zs + [x] + rest);
    LeadAtEnd(g, h, Broken, true, true);
    SceneStops(g, h, Broken, x);
    BrokenFails(g, h, rest[0], true);
    hide Meaning, Sound, Staged, AndList, IsStop, Front;
    EasyZs(g, h, Broken, "");
    StoppedFront(w, h.zs, x);
    FrontFails(w, h.zs + [x], rest, 0);
  }

  lemma StoppedFront(w: World, zs: seq<Id>, x: Id)
    requires Front(w, zs, 0) && IsStop(w.g, x) && w.E(Call(x, 0, w.acts, true)) == Some(Matched(0, []))
    ensures Front(w, zs + [x], 0) && HasStop(w.g, (zs + [x])[1..])
  {
    FrontAppend(w, zs, [x], 0);
    assert (zs + [x])[1..] == zs[1..] + [x];
    StopAppend(w.g, zs[1..], [x]);
    HasStopCons(w.g, [x]);
  }

  lemma LeadingStop(h: Shape)
    requires Sound(h) && h.k.And? && StopFirst(h)
    ensures CanChange(h)
  {
    SceneStands(h, Broken);
    hide Scene, SceneAfter, Meaning, Sound, IsBefore, IsAfter, CanChange, StopFirst;
    StopFirstBefore(Scene(h, Broken), h);
    StopFirstAfter(SceneAfter(h, Broken), h);
    SceneChanges(h, Broken, "", 0);
  }

  // ----- what is skipped in front -----

  function Moving(fatal: set<Id>): Cast {
    Cast(Passes(), Passes(), Passes(), fatal)
  }

  lemma RestPasses(g: Table, h: Shape, fatal: set<Id>, s: string, loc: nat)
    requires Sound(h) && Staged(g, h, Moving(fatal)) && h.xs != []
    ensures var w := World(g, s, Meant(g, s), true); Passing(w, h.xs[1..], loc) && Passing(w, h.ys, loc) && Passing(w, h.zs, loc)
  {
    var rest := h.xs[1..];
    assert forall i :: 0 <= i < |rest| ==> rest[i] in h.xs && rest[i] != h.xs[0];
    EasyFront(g, h, Moving(fatal), s, rest, loc);
    EasyFront(g, h, Moving(fatal), s, h.ys, loc);
    EasyFront(g, h, Moving(fatal), s, h.zs, loc);
  }

  /** Asked after other members, the nested sequence ends where its own leading material ends. */
  lemma MovedNested(g: Table, h: Shape, fatal: set<Id>, s: string)
    requires Sound(h) && h.k.And? && Staged(g, h, Moving(fatal)) && h.xs != []
    ensures Meaning(g, s, Call(1, 0, true, true)) ==
            Some(if MeetsFatal(h.n, Moving(fatal)) then Raised(FatalError(0)) else Matched(SkipWhite(Blanks(h.n), s, 0), []))
    ensures !IsStop(g, 1)
  {
    var w, c, at := World(g, s, Meant(g, s), true), Moving(fatal), SkipWhite(Blanks(h.n), s, 0);
    assert Lookup(g, 1) == h.n;
    NestedAt(g, h, c, s, Call(1, 0, true, true));
    RestPasses(g, h, fatal, s, at);
    if h.xs[0] in h.stops {
      EasyPasses(g, h, c, s, Call(h.xs[0], at, true, false));
    } else {
      LeadPasses(g, h, c, s, Call(h.xs[0], at, true, false));
    }
    PassList(w, h.xs, at);
    hide Meaning, Staged, AndList, Passing, MeetsFatal, SkipWhite;
  }

  /** A sequence whose first members pass in place and whose next one moves on or fails. */
  lemma MovedRun(w: World, zs: seq<Id>, x: Id, ys: seq<Id>, at: nat)
    requires Front(w, zs, 0) && !IsStop(w.g, x) && w.E(Call(x, 0, w.acts, true)).Some?
    requires var o := w.E(Call(x, 0, w.acts, true)).value; o.Matched? ==> o == Matched(at, []) && Passing(w, ys, at)
    ensures var o, r := w.E(Call(x, 0, w.acts, true)).value, AndList(w, zs + [x] + ys, 0);
            if o.Matched? then r == Some(Matched(at, [])) else r.Some? && r.value.Raised?
  {
    assert zs != [];
    hide AndList, AndRun, HasStop, Front;
    FrontThen(w, zs, x, ys, 0);
    if w.E(Call(x, 0, w.acts, true)).value.Matched? { PassRun(w, ys, at, [], HasStop(w.g, zs[1..])); }
    hide Passing;
  }

  lemma MovedBefore(g: Table, h: Shape, fatal: set<Id>, s: string)
    requires Sound(h) && h.k.And? && IsBefore(g, h, Moving(fatal)) && h.xs != [] && h.zs != []
    ensures var r := Meaning(g, s, Call(0, 0, true, true));
            if MeetsFatal(h.n, Moving(fatal)) then r.Some? && r.value.Raised?
            else r == Some(Matched(SkipWhite(Blanks(h.n), s, 0), []))
  {
    var w, at := World(g, s, Meant(g, s), true), SkipWhite(Blanks(h.n), s, 0);
    MovedNested(g, h, fatal, s);
    EasyFront(g, h, Moving(fatal), s, h.zs, 0);
    RestPasses(g, h, fatal, s, at);
    OuterAt(g, h, s, 0, h.zs + [1] + h.ys);
    hide Meaning, Sound, Staged, AndList, IsStop, SkipWhite, MeetsFatal, Front, Passing;
    MovedRun(w, h.zs, 1, h.ys, at);
  }

  lemma MovedAfter(g: Table, h: Shape, fatal: set<Id>, s: string)
    requires Sound(h) && h.k.And? && IsAfter(g, h, Moving(fatal)) && h.xs != [] && h.zs != [] && h.xs[0] !in h.stops
    ensures var r := Meaning(g, s, Call(0, 0, true, true));
            if MeetsFatal(h.lead, Moving(fatal)) then r.Some? && r.value.Raised?
            else r == Some(Matched(SkipWhite(Blanks(h.lead), s, 0), []))
  {
    var w, at, x, rest := World(g, s, Meant(g, s), true), SkipWhite(Blanks(h.lead), s, 0), h.xs[0], h.xs[1..] + h.ys;
    assert h.zs + h.xs + h.ys == h.zs + [x] + rest;
    OuterAt(g, h, s, 0, h.zs + [x] + rest);
    LeadPasses(g, h, Moving(fatal), s, Call(x, 0, true, true));
    SceneStops(g, h, Moving(fatal), x);
    hide Meaning, Sound, Staged, AndList, IsStop, SkipWhite, MeetsFatal, Front, Passing, Blanks;
    EasyZs(g, h, Moving(fatal), s);
    RestPasses(g, h, fatal, s, at);
    PassingBoth(w, h.xs[1..], h.ys, at);
    MovedRun(w, h.zs, x, rest, at);
  }

  lemma EasyZs(g: Table, h: Shape, c: Cast, s: string)
    requires Sound(h) && Staged(g, h, c) && c.before == Passes() && h.zs != []
    ensures Front(World(g, s, Meant(g, s), true), h.zs, 0)
  {
    EasyFront(g, h, c, s, h.zs, 0);
  }

  lemma PassingBoth(w: World, a: seq<Id>, b: seq<Id>, loc: nat)
    requires Passing(w, a, loc) && Passing(w, b, loc)
    ensures Passing(w, a + b, loc)
  {
  }

  /** The nested sequence and its first member do not skip the same blanks, or one skips an element
      that the other does not. */
  ghost predicate LeadsDiffer(n: Node, m: Node) {
    || (exists c :: c in Blanks(n) && c !in Blanks(m)) || (exists c :: c in Blanks(m) && c !in Blanks(n))
    || (exists i :: i in Ignored(n) && i !in Ignored(m)) || (exists i :: i in Ignored(m) && i !in Ignored(n))
  }

  /** One blank, or one fatal element, tells them apart. */
  lemma TellApart(n: Node, m: Node) returns (fatal: set<Id>, s: string)
    requires LeadsDiffer(n, m)
    ensures MeetsFatal(n, Moving(fatal)) != MeetsFatal(m, Moving(fatal)) ||
            (!MeetsFatal(n, Moving(fatal)) && SkipWhite(Blanks(n), s, 0) != SkipWhite(Blanks(m), s, 0))
  {
    if i :| i in Ignored(n) && i !in Ignored(m) {
      fatal, s := {i}, "";
    } else if i :| i in Ignored(m) && i !in Ignored(n) {
      fatal, s := {i}, "";
    } else {
      var c :| (c in Blanks(n) && c !in Blanks(m)) || (c in Blanks(m) && c !in Blanks(n));
      fatal, s := {}, [c];
      OneBlank(Blanks(n), c);
      OneBlank(Blanks(m), c);
    }
  }

  lemma OneBlank(chars: string, c: char)
    ensures SkipWhite(chars, [c], 0) == if c in chars then 1 else 0
  {
    assert SkipWhite(chars, [c], 1) == 1;
  }

  lemma DifferingLead(h: Shape)
    requires Sound(h) && h.k.And? && h.zs != [] && h.xs != [] && h.xs[0] !in h.stops && LeadsDiffer(h.n, h.lead)
    ensures CanChange(h)
  {
    var fatal, s := TellApart(h.n, h.lead);
    var c := Moving(fatal);
    SceneStands(h, c);
    hide Scene, SceneAfter, Meaning, Sound, IsBefore, IsAfter, CanChange, MeetsFatal, SkipWhite;
    MovedBefore(Scene(h, c), h, fatal, s);
    MovedAfter(SceneAfter(h, c), h, fatal, s);
    SceneChanges(h, c, s, 0);
  }

  lemma StoppedAfter(g: Table, h: Shape, fatal: set<Id>, s: string)
    requires Sound(h) && h.k.And? && IsAfter(g, h, Moving(fatal)) && h.xs != [] && h.zs != [] && h.xs[0] in h.stops
    ensures Meaning(g, s, Call(0, 0, true, true)) == Some(Matched(0, []))
  {
    var w, ids := World(g, s, Meant(g, s), true), h.zs + h.xs + h.ys;
    assert forall i :: 0 <= i < |ids| ==> ids[i] in h.zs || ids[i] in h.xs || ids[i] in h.ys;
    OuterAt(g, h, s, 0, ids);
    EasyFront(g, h, Moving(fatal), s, ids, 0);
    hide Meaning, Sound, Staged, AndList, Front;
    PassListFront(w, ids, 0);
  }

  /** A nested sequence that starts with a stop and has anything to skip. */
  lemma SkippingStop(h: Shape)
    requires Sound(h) && h.k.And? && h.zs != [] && h.xs != [] && h.xs[0] in h.stops && !Idle(h.n)
    ensures CanChange(h)
  {
    var idle := h.n.(callPreparse := false);
    assert LeadsDiffer(h.n, idle) by {
      assert Ignored(h.n) != [] ==> Ignored(h.n)[0] in Ignored(h.n);
      assert Blanks(h.n) != "" ==> Blanks(h.n)[0] in Blanks(h.n);
    }
    var fatal, s := TellApart(h.n, idle);
    var c := Moving(fatal);
    assert !MeetsFatal(idle, c);
    NoBlanks(s, 0);
    SceneStands(h, c);
    hide Scene, SceneAfter, Meaning, Sound, IsBefore, IsAfter, CanChange, MeetsFatal;
    MovedBefore(Scene(h, c), h, fatal, s);
    StoppedAfter(SceneAfter(h, c), h, fatal, s);
    SceneChanges(h, c, s, 0);
  }

  // ----- alternatives -----

  function Choosing(fatal: set<Id>): Cast {
    Cast(Fails(), Passes(), Fails(), fatal)
  }

  lemma AroundFails(g: Table, h: Shape, fatal: set<Id>, s: string, loc: nat, acts: bool)
    requires Sound(h) && !h.k.And? && Staged(g, h, Choosing(fatal))
    ensures Failing(Meant(g, s), h.zs + h.ys, loc, acts)
  {
    var ids := h.zs + h.ys;
    forall i | 0 <= i < |ids| ensures Meaning(g, s, Call(ids[i], loc, acts, true)) == Some(Raised(ParseError(0))) {
      var id := ids[i];
      assert id in h.zs || id in h.ys;
      assert id in AllIds(h) && Role(h, Choosing(fatal), id) == Fails() && Lookup(g, id) == Role(h, Choosing(fatal), id);
      FailMeans(g, s, Call(id, loc, acts, true));
    }
    hide Meaning;
  }

  lemma InsidePasses(g: Table, h: Shape, fatal: set<Id>, s: string, loc: nat, acts: bool)
    requires Sound(h) && !h.k.And? && Staged(g, h, Choosing(fatal))
    ensures forall i :: 0 <= i < |h.xs| ==> Meaning(g, s, Call(h.xs[i], loc, acts, true)) == Some(Matched(loc, []))
  {
    forall i | 0 <= i < |h.xs| ensures Meaning(g, s, Call(h.xs[i], loc, acts, true)) == Some(Matched(loc, [])) {
      var id := h.xs[i];
      assert id in AllIds(h) && Role(h, Choosing(fatal), id) == Passes();
      MemberPasses(g, h, Choosing(fatal), s, Call(id, loc, acts, true));
    }
    hide Meaning;
  }

  /** Alternatives with failing members around one element, and around several that pass. */
  lemma RunAround(k: Kind, w: World, zs: seq<Id>, x: Id, ys: seq<Id>, start: nat)
    requires Composite(k) && !k.And? && Failing(w.E, zs + ys, start, w.acts) && Failing(w.E, zs + ys, start, false)
    requires w.E(Call(x, start, w.acts, true)) == w.E(Call(x, start, false, true)) && w.E(Call(x, start, false, true)).Some?
    ensures var o := w.E(Call(x, start, w.acts, true)).value;
            var r := Run(k, w, zs + [x] + ys, start);
            && (o.Matched? ==> r == Some(o))
            && (o.Raised? ==> r.Some? && r.value.Raised?)
            && (o.Raised? && o.exc.ParseError? ==>
                  r == Some(NoneMatched(start, FailedAt(ys, Further(FailedAt(zs, None), o.exc.loc)))))
  {
    if k.Or? {
      FailOr(w.E, w.s, zs, x, ys, start, w.acts);
    } else {
      FailFirst(w.E, w.s, zs, x, ys, start, w.acts);
    }
    hide Failing, OrRun, FirstRun;
  }

  lemma RunPasses(k: Kind, w: World, zs: seq<Id>, xs: seq<Id>, ys: seq<Id>, start: nat)
    requires Composite(k) && !k.And? && Failing(w.E, zs + ys, start, w.acts) && Failing(w.E, zs + ys, start, false) && xs != []
    requires forall i :: 0 <= i < |xs| ==>
               w.E(Call(xs[i], start, false, true)) == w.E(Call(xs[i], start, w.acts, true)) == Some(Matched(start, []))
    ensures Run(k, w, zs + xs + ys, start) == Some(Matched(start, []))
  {
    FailParts(w.E, zs, ys, start, w.acts);
    FailParts(w.E, zs, ys, start, false);
    if k.Or? {
      PassOr(w.E, w.s, zs, xs, ys, start, w.acts);
    } else {
      assert zs + xs + ys == zs + (xs + ys);
      PassFirst(w.E, w.s, zs, xs + ys, start, w.acts);
    }
    hide Failing, OrRun, FirstRun;
  }

  lemma RunFails(k: Kind, w: World, ids: seq<Id>, start: nat)
    requires Composite(k) && !k.And? && Failing(w.E, ids, start, w.acts) && Failing(w.E, ids, start, false)
    ensures Run(k, w, ids, start) == Some(NoneMatched(start, FailedAt(ids, None)))
  {
    if k.Or? {
      FailTrials(w.E, w.s, ids, start, Untried);
    } else {
      FailSweep(w.E, w.s, ids, start, None, w.acts);
    }
    hide Failing;
  }

  lemma ChoiceBefore(g: Table, h: Shape, fatal: set<Id>, s: string, loc: nat)
    requires Sound(h) && !h.k.And? && IsBefore(g, h, Choosing(fatal))
    ensures var r, at := Meaning(g, s, Call(0, loc, true, true)), SkipWhite(Blanks(h.n), s, loc);
            && (MeetsFatal(h.n, Choosing(fatal)) ==> r.Some? && r.value.Raised?)
            && (!MeetsFatal(h.n, Choosing(fatal)) && h.xs != [] ==> r == Some(Matched(at, [])))
            && (!MeetsFatal(h.n, Choosing(fatal)) && h.xs == [] && loc > 0 ==>
                  r.Some? && r.value.Raised? && r.value.exc.ParseError? && r.value.exc.loc > 0)
  {
    var w, at := World(g, s, Meant(g, s), true), SkipWhite(Blanks(h.n), s, loc);
    AroundFails(g, h, fatal, s, loc, true);
    AroundFails(g, h, fatal, s, loc, false);
    NestedChoice(g, h, fatal, s, loc, true);
    NestedChoice(g, h, fatal, s, loc, false);
    WhiteForward(Blanks(h.n), s, loc);
    OuterAt(g, h, s, loc, h.zs + [1] + h.ys);
    hide Meaning, Sound, Staged, Run, SkipWhite, MeetsFatal, Failing;
    RunAround(h.k, w, h.zs, 1, h.ys, loc);
  }

  lemma {:induction false} WhiteForward(chars: string, s: string, loc: nat)
    ensures SkipWhite(chars, s, loc) >= loc
    decreases |s| - loc
  {
    if loc < |s| && s[loc] in chars { WhiteForward(chars, s, loc + 1); }
  }

  lemma NestedChoice(g: Table, h: Shape, fatal: set<Id>, s: string, loc: nat, acts: bool)
    requires Sound(h) && !h.k.And? && Staged(g, h, Choosing(fatal))
    ensures var at := SkipWhite(Blanks(h.n), s, loc);
            Meaning(g, s, Call(1, loc, acts, true)) ==
            Some(if MeetsFatal(h.n, Choosing(fatal)) then Raised(FatalError(0))
                 else if h.xs == [] then Raised(ParseError(at)) else Matched(at, []))
  {
    var w, at := World(g, s, Meant(g, s), acts), SkipWhite(Blanks(h.n), s, loc);
    NestedAt(g, h, Choosing(fatal), s, Call(1, loc, acts, true));
    assert Lookup(g, 1) == h.n;
    InsidePasses(g, h, fatal, s, at, acts);
    InsidePasses(g, h, fatal, s, at, false);
    hide Meaning, Staged, MeetsFatal, SkipWhite, Sound;
    if h.xs == [] {
      RunFails(h.k, w, [], at);
    } else {
      assert [] + h.xs + [] == h.xs;
      RunPasses(h.k, w, [], h.xs, [], at);
    }
    hide Run;
  }

  lemma ChoiceAfter(g: Table, h: Shape, fatal: set<Id>, s: string, loc: nat)
    requires Sound(h) && !h.k.And? && IsAfter(g, h, Choosing(fatal)) && h.zs + h.ys != []
    ensures Meaning(g, s, Call(0, loc, true, true)) ==
            Some(if h.xs != [] then Matched(loc, []) else Raised(ParseError(0)))
  {
    var w := World(g, s, Meant(g, s), true);
    AroundFails(g, h, fatal, s, loc, true);
    AroundFails(g, h, fatal, s, loc, false);
    InsidePasses(g, h, fatal, s, loc, true);
    InsidePasses(g, h, fatal, s, loc, false);
    OuterAt(g, h, s, loc, h.zs + h.xs + h.ys);
    hide Meaning, Sound, Staged, Failing;
    if h.xs == [] {
      assert h.zs + h.xs + h.ys == h.zs + h.ys;
      RunFails(h.k, w, h.zs + h.ys, loc);
    } else {
      RunPasses(h.k, w, h.zs, h.xs, h.ys, loc);
    }
    hide Run;
  }

  /** Nested alternatives need members. */
  lemma EmptyAlternatives(h: Shape)
    requires Sound(h) && !h.k.And? && h.xs == [] && h.zs + h.ys != []
    ensures CanChange(h)
  {
    var c := Choosing({});
    SceneStands(h, c);
    hide Scene, SceneAfter, Meaning, Sound, IsBefore, IsAfter, CanChange;
    ChoiceBefore(Scene(h, c), h, {}, "ab", 1);
    ChoiceAfter(SceneAfter(h, c), h, {}, "ab", 1);
    SceneChanges(h, c, "ab", 1);
  }

  /** Nested alternatives have nothing of their own to skip. */
  lemma SkippingAlternatives(h: Shape)
    requires Sound(h) && !h.k.And? && h.xs != [] && h.zs + h.ys != [] && !Idle(h.n)
    ensures CanChange(h)
  {
    var idle := h.n.(callPreparse := false);
    assert LeadsDiffer(h.n, idle) by {
      assert Ignored(h.n) != [] ==> Ignored(h.n)[0] in Ignored(h.n);
      assert Blanks(h.n) != "" ==> Blanks(h.n)[0] in Blanks(h.n);
    }
    var fatal, s := TellApart(h.n, idle);
    var c := Choosing(fatal);
    assert !MeetsFatal(idle, Moving(fatal)) && MeetsFatal(h.n, c) == MeetsFatal(h.n, Moving(fatal));
    NoBlanks(s, 0);
    SceneStands(h, c);
    hide Scene, SceneAfter, Meaning, Sound, IsBefore, IsAfter, CanChange, MeetsFatal;
    ChoiceBefore(Scene(h, c), h, fatal, s, 0);
    ChoiceAfter(SceneAfter(h, c), h, fatal, s, 0);
    SceneChanges(h, c, s, 0);
  }

  // ----- the condition, shape by shape -----

  /** The condition of `SafeSite`, read off the shape. */
  ghost predicate ShapeSafe(h: Shape) {
    && h.xs != []
    && if h.k.And? then !StopLeaks(h) && (h.zs != [] ==> h.xs[0] !in h.stops && SameShapeLead(h)) else Idle(h.n)
  }

  ghost predicate SameShapeLead(h: Shape) {
    Ignored(h.n) == Ignored(h.lead) && forall c :: c in Blanks(h.n) <==> c in Blanks(h.lead)
  }

  /** Shapes outside the condition for which nothing is claimed: a stop as first member of a sequence
      that has nothing to skip and with nothing for the stop to act on, and the same ignorable
      elements in another order or number. */
  ghost predicate Unsettled(h: Shape) {
    && h.k.And? && h.zs != [] && h.xs != [] && !StopLeaks(h)
    && if h.xs[0] in h.stops then Idle(h.n) && !StopFirst(h) else !LeadsDiffer(h.n, h.lead) && !SameShapeLead(h)
  }

  lemma SafeScene(h: Shape, c: Cast)
    requires Sound(h) && ShapeSafe(h) && Playable(c)
    ensures var g := Scene(h, c); Site(g, 0, h.zs, 1, h.ys) && SafeSite(g, 0, h.zs, 1, h.ys)
  {
    var g := Scene(h, c);
    SceneStands(h, c);
    assert g[0] == Plain(WithExprs(h.k, h.zs + [1] + h.ys)) && Lookup(g, 1) == h.n;
    if h.k.And? { SafeSequenceScene(g, h, c); }
    hide Scene, Sound, SafeSequence, Idle;
  }

  lemma SafeSequenceScene(g: Table, h: Shape, c: Cast)
    requires Sound(h) && ShapeSafe(h) && Playable(c) && h.k.And? && Staged(g, h, c)
    ensures SafeSequence(g, h.zs, 1, h.xs, h.ys)
  {
    SceneHasStop(g, h, c, h.xs[1..]);
    if h.zs != [] { SceneHasStop(g, h, c, h.zs[1..]); }
    if h.ys != [] { SceneStops(g, h, c, h.ys[0]); }
    SceneStops(g, h, c, h.xs[0]);
    assert h.xs[0] in AllIds(h) && Lookup(g, h.xs[0]) == Role(h, c, h.xs[0]) && Lookup(g, 1) == h.n;
    if h.zs != [] {
      assert Role(h, c, h.xs[0]) == h.lead.(kind := c.inside.kind);
      assert Ignored(Role(h, c, h.xs[0])) == Ignored(h.lead) && Blanks(Role(h, c, h.xs[0])) == Blanks(h.lead);
    }
    hide Sound, Staged, HasStop, IsStop, Role, AllIds, Ignored, Blanks, StopIn;
  }

  /** A nested list can be opened in every grammar of its shape exactly when the shape meets the
      condition. */
  lemma ShapeExact(h: Shape)
    requires Sound(h) && h.zs + h.ys != [] && !Unsettled(h)
    ensures CanChange(h) <==> !ShapeSafe(h)
  {
    if ShapeSafe(h) {
      forall c | Playable(c) ensures !Changes(Scene(h, c), 0, h.zs, 1, h.ys) {
        SafeScene(h, c);
        SpliceKeepsMeaning(Scene(h, c), 0, h.zs, 1, h.ys);
        hide SafeSite, Scene, SameMeaning;
      }
    } else {
      UnsafeShape(h);
    }
    hide Sound, ShapeSafe, Unsettled;
  }

  lemma UnsafeShape(h: Shape)
    requires Sound(h) && h.zs + h.ys != [] && !Unsettled(h) && !ShapeSafe(h)
    ensures CanChange(h)
  {
    hide Sound, CanChange, LeadsDiffer, Idle;
    if h.xs == [] {
      if h.k.And? { EmptySequence(h); } else { EmptyAlternatives(h); }
    } else if !h.k.And? {
      SkippingAlternatives(h);
    } else if StopLeaks(h) {
      LeakingStop(h);
    } else if h.xs[0] in h.stops {
      if StopFirst(h) { LeadingStop(h); } else { SkippingStop(h); }
    } else {
      DifferingLead(h);
    }
  }

  // ----- index errors -----

  function Overrun(): Node {
    Passes().(kind := Leaf((s: string, loc: nat) => Raised(IndexFailure)), mayIndexError := false)
  }

  /** An outer sequence that does not turn index errors into failures, around one that does. */
  function LooseSequence(): Table {
    map[0 := Plain(And([1, 2])).(mayIndexError := false), 1 := Plain(And([3])), 2 := Overrun(), 3 := Passes()]
  }

  lemma OverrunMeans(g: Table, s: string, c: Call)
    requires Lookup(g, c.id) == Overrun() && c.loc < |s|
    ensures Meaning(g, s, c) == Some(Raised(IndexFailure))
  {
    NoBlanks(s, c.loc);
    assert Begin(g, s, c) == Return(Raised(IndexFailure));
    hide Begin, Meaning;
    ParsedIsMeant(g, s, c, 0);
  }

  lemma LooseBefore()
    ensures Meaning(LooseSequence(), "a", Call(0, 0, true, true)) == Some(Raised(IndexFailure))
  {
    var g, s := LooseSequence(), "a";
    var w := World(g, s, Meant(g, s), true);
    PassMeans(g, s, Call(3, 0, true, false));
    PlainAt(g, s, Call(1, 0, true, false), And([3]));
    OverrunMeans(g, s, Call(2, 0, true, true));
    IdleLead(Meant(g, s), s, Lookup(g, 0), 0);
    ListAt(g, s, Call(0, 0, true, true), 0);
    hide Meaning, Lead;
    FrontOne(w, 3, 0);
    PassListFront(w, [3], 0);
    assert [1, 2][1..] == [2];
    MemberOnly(w, 2, 0, [], false);
  }

  lemma LooseAfter()
    requires Site(LooseSequence(), 0, [], 1, [2])
    ensures Meaning(SpliceAt(LooseSequence(), 0, [], 1, [2]), "a", Call(0, 0, true, true)) == Some(Raised(ParseError(1)))
  {
    var g, s := SpliceAt(LooseSequence(), 0, [], 1, [2]), "a";
    var w := World(g, s, Meant(g, s), true);
    assert [] + [3] + [2] == [3, 2] && Lookup(g, 0) == Plain(And([3, 2]));
    PassMeans(g, s, Call(3, 0, true, false));
    OverrunMeans(g, s, Call(2, 0, true, true));
    PlainAt(g, s, Call(0, 0, true, true), And([3, 2]));
    hide Meaning, SpliceAt;
    assert [3, 2][1..] == [2];
    MemberOnly(w, 2, 0, [], false);
  }

  /** The outer sequence has to turn index errors into failures itself. */
  lemma LooseSequenceChanges()
    ensures Changes(LooseSequence(), 0, [], 1, [2])
  {
    assert [] + [1] + [2] == [1, 2];
    assert Site(LooseSequence(), 0, [], 1, [2]);
    LooseBefore();
    LooseAfter();
    ChangesHere(LooseSequence(), 0, [], 1, [2], "a", Call(0, 0, true, true));
    hide Meaning, SpliceAt, LooseSequence;
  }

  /** Matches the next character, but its action raises an index error. */
  function Raising(): Node {
    Plain(Leaf((s: string, loc: nat) => Matched(loc + 1, [])))
      .(action := Some((s: string, loc: nat, tokens: Tokens) => Throw(IndexFailure)))
  }

  function LooseChoice(): Table {
    map[0 := Plain(Or([1, 2])).(mayIndexError := false), 1 := Plain(Or([3])), 2 := Raising(), 3 := Fails()]
  }

  lemma RaisingMeans(g: Table, s: string, c: Call)
    requires Lookup(g, c.id) == Raising()
    ensures Meaning(g, s, c) == Some(if c.acts then Raised(IndexFailure) else Matched(c.loc + 1, []))
  {
    NoBlanks(s, c.loc);
    assert Begin(g, s, c) == Return(if c.acts then Raised(IndexFailure) else Matched(c.loc + 1, []));
    hide Begin, Meaning;
    ParsedIsMeant(g, s, c, 0);
  }

  lemma SecondChosen(E: Oracle, s: string, a: Id, b: Id)
    requires E(Call(a, 0, false, true)) == Some(Raised(ParseError(0)))
    requires E(Call(b, 0, false, true)) == Some(Matched(1, []))
    ensures OrRun(E, s, [a, b], 0, true) == E(Call(b, 0, true, true))
  {
    assert [a, b][1..] == [b] && [b][1..] == [];
    var t := Tallied(s, 0, a, Raised(ParseError(0)), Untried);
    assert Trials(E, s, [a, b], 0, Untried) == Trials(E, s, [b], 0, t) == Trials(E, s, [], 0, Tallied(s, 0, b, Matched(1, []), t));
  }

  lemma LooseChoiceBefore()
    ensures Meaning(LooseChoice(), "a", Call(0, 0, true, true)) == Some(Raised(IndexFailure))
  {
    var g, s := LooseChoice(), "a";
    var E := Meant(g, s);
    FailMeans(g, s, Call(3, 0, false, true));
    PlainAt(g, s, Call(1, 0, false, true), Or([3]));
    assert OrRun(E, s, [3], 0, false) == Some(Raised(ParseError(0))) by { assert [3][1..] == []; }
    RaisingMeans(g, s, Call(2, 0, false, true));
    RaisingMeans(g, s, Call(2, 0, true, true));
    IdleLead(E, s, Lookup(g, 0), 0);
    ListAt(g, s, Call(0, 0, true, true), 0);
    hide Meaning, Lead;
    SecondChosen(E, s, 1, 2);
  }

  lemma LooseChoiceAfter()
    requires Site(LooseChoice(), 0, [], 1, [2])
    ensures Meaning(SpliceAt(LooseChoice(), 0, [], 1, [2]), "a", Call(0, 0, true, true)) == Some(Raised(ParseError(1)))
  {
    var g, s := SpliceAt(LooseChoice(), 0, [], 1, [2]), "a";
    var E := Meant(g, s);
    assert [] + [3] + [2] == [3, 2] && Lookup(g, 0) == Plain(Or([3, 2]));
    FailMeans(g, s, Call(3, 0, false, true));
    RaisingMeans(g, s, Call(2, 0, false, true));
    RaisingMeans(g, s, Call(2, 0, true, true));
    PlainAt(g, s, Call(0, 0, true, true), Or([3, 2]));
    hide Meaning, SpliceAt;
    SecondChosen(E, s, 3, 2);
  }

  /** So do outer alternatives of which the longest one counts. */
  lemma LooseChoiceChanges()
    ensures Changes(LooseChoice(), 0, [], 1, [2])
  {
    assert [] + [1] + [2] == [1, 2];
    assert Site(LooseChoice(), 0, [], 1, [2]);
    LooseChoiceBefore();
    LooseChoiceAfter();
    ChangesHere(LooseChoice(), 0, [], 1, [2], "a", Call(0, 0, true, true));
    hide Meaning, SpliceAt, LooseChoice;
  }
}
