/** What the elements mean, class by class, stated on the outcomes of the elements they are made of. */
module ElementLaws {
  import opened Results
  import opened Grammar
  import opened Meanings
  import opened Splice
  import opened Leading
  import opened Streamline

  /** The element's own rule starts here: where its leading material ends, if it was asked with leave
      to skip it, else where it was asked. */
  ghost predicate Starts(g: Table, s: string, c: Call, start: nat) {
    if c.pre then Lead(Meant(g, s), s, Lookup(g, c.id), c.loc) == Some(Matched(start, [])) else start == c.loc
  }

  /** Neither post-processing nor an action. */
  predicate Bare(n: Node) {
    n.post.None? && n.action.None?
  }

  /** Failures that let another element be tried. */
  predicate Soft(x: Exc) {
    x.ParseError? || x.IndexFailure?
  }

  /** How a failure leaves the element. */
  function Reported(n: Node, s: string, loc: nat, x: Exc): Exc {
    if x.IndexFailure? && (n.mayIndexError || n.debug || loc >= |s|) then ParseError(|s|) else x
  }

  lemma StartsValue(g: Table, s: string, c: Call, start: nat)
    requires Starts(g, s, c, start)
    ensures Meaning(g, s, c) == Value(g, s, Meant(g, s), Impl(g, s, Env(c.id, c.loc, c.acts), start))
  {
    hide Meaning, Value, Impl, Lead;
    Fixpoint(g, s, c);
    if c.pre { LeadValue(g, s, Meant(g, s), c); }
  }

  lemma BareFinish(g: Table, s: string, e: Env, start: nat, o: Outcome)
    requires Bare(Lookup(g, e.id))
    ensures Finish(g, s, e, start, o) == if o.Matched? then o else Raised(Reported(Lookup(g, e.id), s, e.loc0, o.exc))
  {
  }

  /** A rule that is done at once. */
  lemma DoneMeans(g: Table, s: string, c: Call, start: nat, o: Outcome)
    requires Starts(g, s, c, start) && Bare(Lookup(g, c.id))
    requires Impl(g, s, Env(c.id, c.loc, c.acts), start) == Done(g, s, Env(c.id, c.loc, c.acts), start, o)
    ensures Meaning(g, s, c) == Some(if o.Matched? then o else Raised(Reported(Lookup(g, c.id), s, c.loc, o.exc)))
  {
    hide Meaning, Value, Impl, Finish, Starts;
    var e := Env(c.id, c.loc, c.acts);
    StartsValue(g, s, c, start);
    BareFinish(g, s, e, start, o);
    ValueOfReturn(g, s, Meant(g, s), Finish(g, s, e, start, o));
  }

  /** A rule that asks once and is done with the answer. */
  lemma OnceMeans(g: Table, s: string, c: Call, start: nat, asked: Call, k: Kont, o: Outcome)
    requires Starts(g, s, c, start) && Bare(Lookup(g, c.id))
    requires Impl(g, s, Env(c.id, c.loc, c.acts), start) == Ask(asked, k)
    requires Meaning(g, s, asked).Some? ==>
      Resume(g, s, k, Meaning(g, s, asked).value) == Done(g, s, Env(c.id, c.loc, c.acts), start, o)
    ensures Meaning(g, s, c) ==
      if Meaning(g, s, asked).None? then None
      else Some(if o.Matched? then o else Raised(Reported(Lookup(g, c.id), s, c.loc, o.exc)))
  {
    hide Meaning, Value, Impl, Finish, Starts, Resume;
    var e, E := Env(c.id, c.loc, c.acts), Meant(g, s);
    StartsValue(g, s, c, start);
    BareFinish(g, s, e, start, o);
    ValueOfAsk(g, s, E, asked, k);
    ValueOfReturn(g, s, E, Finish(g, s, e, start, o));
  }

  // ----- leading material -----

  ghost predicate Absent(E: Oracle, id: Id, loc: nat) {
    var r := E(Call(id, loc, true, true));
    r.Some? && r.value.Raised? && r.value.exc.ParseError?
  }

  lemma {:induction false} StepsLeaveNone(E: Oracle, ids: seq<Id>, i: nat, found: bool, loc: nat, n: nat)
    requires ids != [] && (!found ==> forall j :: 0 <= j < i && j < |ids| ==> Absent(E, ids[j], loc))
    ensures var r := SkipSteps(E, ids, i, found, loc, n);
      r.Some? && r.value.Matched? ==> forall j :: 0 <= j < |ids| ==> Absent(E, ids[j], r.value.loc)
    decreases n
  {
    if !(i >= |ids| && !found) && n > 0 {
      var (j, again) := if i < |ids| then (i, found) else (0, false);
      var r := E(Call(ids[j], loc, true, true));
      if r.Some? && r.value.Matched? {
        StepsLeaveNone(E, ids, j, true, r.value.loc, n - 1);
      } else if r.Some? && r.value.exc.ParseError? {
        StepsLeaveNone(E, ids, j + 1, again, loc, n - 1);
      }
    }
  }

  /** Skipping ends where none of the ignorable elements is. */
  lemma SkipLeavesNone(E: Oracle, ids: seq<Id>, loc: nat)
    ensures var r := SkipAll(E, ids, loc);
      r.Some? && r.value.Matched? ==> forall j :: 0 <= j < |ids| ==> Absent(E, ids[j], r.value.loc)
  {
    hide SkipSteps, Absent;
    if ids != [] {
      if n: nat :| SkipSteps(E, ids, 0, false, loc, n).Some? && SkipOutcome(E, ids, loc) == SkipSteps(E, ids, 0, false, loc, n) {
        StepsLeaveNone(E, ids, 0, false, loc, n);
      }
    }
  }

  /** Blanks are skipped up to the first character that is none. */
  lemma {:induction false} BlanksEnd(chars: string, s: string, loc: nat)
    requires loc <= |s|
    ensures var end := SkipWhite(chars, s, loc);
      && loc <= end <= |s| && (forall i :: loc <= i < end ==> s[i] in chars)
      && (end < |s| ==> s[end] !in chars)
    decreases |s| - loc
  {
    if loc < |s| && s[loc] in chars { BlanksEnd(chars, s, loc + 1); }
  }

  // ----- elements around one other -----

  /** An optional element: what it encloses, or its default token where that is absent. */
  lemma OptionalLaw(g: Table, s: string, c: Call, start: nat, x: Id, default: Option<string>)
    requires Starts(g, s, c, start) && Bare(Lookup(g, c.id)) && Lookup(g, c.id).kind == Optional(x, default)
    ensures Meaning(g, s, c) ==
      match Meaning(g, s, Call(x, start, c.acts, false))
      case None => None
      case Some(Matched(loc, tokens)) => Some(Matched(loc, tokens))
      case Some(Raised(exc)) =>
        if exc.ParseError? || exc.IndexFailure? then Some(Matched(start, if default.Some? then [default.value] else []))
        else Some(Raised(exc))
  {
    hide Meaning, Starts;
    var asked := Call(x, start, c.acts, false);
    var r := Meaning(g, s, asked);
    var o := if r.None? then Matched(start, [])
      else if r.value.Raised? && Soft(r.value.exc) then Matched(start, if default.Some? then [default.value] else [])
      else r.value;
    OnceMeans(g, s, c, start, asked, InOptional(Env(c.id, c.loc, c.acts), start), o);
  }

  /** Looking ahead matches nothing, where the element is; a fatal failure counts as absence here. */
  lemma FollowedByLaw(g: Table, s: string, c: Call, start: nat, x: Id)
    requires Starts(g, s, c, start) && Bare(Lookup(g, c.id)) && Lookup(g, c.id).kind == FollowedBy(x)
    ensures Meaning(g, s, c) ==
      match Meaning(g, s, Call(x, start, false, true))
      case None => None
      case Some(Matched(_, _)) => Some(Matched(start, []))
      case Some(Raised(exc)) =>
        Some(Raised(if exc.FatalError? || exc.SyntaxFailure? then ParseError(start) else Reported(Lookup(g, c.id), s, c.loc, exc)))
  {
    hide Meaning, Starts;
    var asked := Call(x, start, false, true);
    var r := Meaning(g, s, asked);
    var o := if r.None? || r.value.Matched? then Matched(start, [])
      else if r.value.exc.FatalError? || r.value.exc.SyntaxFailure? then Raised(ParseError(start)) else r.value;
    OnceMeans(g, s, c, start, asked, InAhead(Env(c.id, c.loc, c.acts), start), o);
  }

  /** Looking ahead for absence fails, where it stands, exactly where the element matches. */
  lemma NotAnyLaw(g: Table, s: string, c: Call, start: nat, x: Id)
    requires Starts(g, s, c, start) && Bare(Lookup(g, c.id)) && Lookup(g, c.id).kind == NotAny(x)
    ensures Meaning(g, s, c) ==
      match Meaning(g, s, Call(x, start, false, true))
      case None => None
      case Some(Matched(_, _)) => Some(Raised(ParseError(start)))
      case Some(Raised(_)) => Some(Matched(start, []))
  {
    hide Meaning, Starts;
    var asked := Call(x, start, false, true);
    var r := Meaning(g, s, asked);
    var o := if r.Some? && r.value.Matched? then Raised(ParseError(start)) else Matched(start, []);
    OnceMeans(g, s, c, start, asked, InNot(Env(c.id, c.loc, c.acts), start), o);
  }

  function Inside(k: Kind): Option<Id>
    requires k.Wrapper? || k.Forward?
  {
    match k
    case Wrapper(inner) => inner
    case Forward(inner, _) => inner
  }

  /** A wrapper, or a forward, is what it encloses; without a definition it fails where it stands. */
  lemma EnclosingLaw(g: Table, s: string, c: Call, start: nat)
    requires Starts(g, s, c, start) && Bare(Lookup(g, c.id))
    requires Lookup(g, c.id).kind.Wrapper? || Lookup(g, c.id).kind.Forward?
    ensures var inner := Inside(Lookup(g, c.id).kind);
      if inner.None? then Meaning(g, s, c) == Some(Raised(ParseError(start)))
      else
        Meaning(g, s, c) ==
        match Meaning(g, s, Call(inner.value, start, c.acts, false))
        case None => None
        case Some(Matched(loc, tokens)) => Some(Matched(loc, tokens))
        case Some(Raised(exc)) => Some(Raised(Reported(Lookup(g, c.id), s, c.loc, exc)))
  {
    hide Meaning, Starts;
    var e, inner := Env(c.id, c.loc, c.acts), Inside(Lookup(g, c.id).kind);
    if inner.None? {
      DoneMeans(g, s, c, start, Raised(ParseError(start)));
    } else {
      var asked := Call(inner.value, start, c.acts, false);
      var r := Meaning(g, s, asked);
      OnceMeans(g, s, c, start, asked, InTail(e, start), if r.Some? then r.value else Matched(start, []));
    }
  }

  /** A token: its matcher's outcome, post-processed, and then the action's where actions run or the
      action runs on trials too. */
  lemma LeafLaw(g: Table, s: string, c: Call, start: nat)
    requires Starts(g, s, c, start) && Lookup(g, c.id).kind.Leaf?
    ensures var n := Lookup(g, c.id);
      Meaning(g, s, c) ==
      match n.kind.matcher(s, start)
      case Raised(exc) => Some(Raised(Reported(n, s, c.loc, exc)))
      case Matched(loc, raw) =>
        var tokens := if n.post.None? then raw else n.post.value(loc, raw);
        if n.action.None? || !(c.acts || n.callDuringTry) then Some(Matched(loc, tokens))
        else
          match n.action.value(s, start, tokens)
          case Keep => Some(Matched(loc, tokens))
          case NewTokens(other) => Some(Matched(loc, other))
          case Throw(exc) => Some(Raised(exc))
  {
    hide Meaning, Value, Starts;
    var e, o := Env(c.id, c.loc, c.acts), Lookup(g, c.id).kind.matcher(s, start);
    StartsValue(g, s, c, start);
    ValueOfReturn(g, s, Meant(g, s), Finish(g, s, e, start, o));
  }

  // ----- repetition -----

  /** One round: the first without leave to skip, the others behind the ignorable elements. */
  ghost function RoundAt(E: Oracle, ids: seq<Id>, x: Id, acts: bool, first: bool, loc: nat): Option<Outcome> {
    if first then E(Call(x, loc, acts, false))
    else
      match SkipAll(E, ids, loc)
      case Some(Matched(l, _)) => E(Call(x, l, acts, true))
      case other => other
  }

  /** The element matched from each place to the next. */
  ghost predicate Rounds(E: Oracle, ids: seq<Id>, x: Id, acts: bool, first: bool, places: seq<nat>, parts: seq<Tokens>) {
    && |places| == |parts| + 1
    && forall i :: 0 <= i < |parts| ==>
        RoundAt(E, ids, x, acts, first && i == 0, places[i]) == Some(Matched(places[i + 1], parts[i]))
  }

  /** It matched so from `start`, and then failed. */
  ghost predicate Repeats(E: Oracle, ids: seq<Id>, x: Id, acts: bool, first: bool, start: nat, places: seq<nat>, parts: seq<Tokens>, last: Exc) {
    && Rounds(E, ids, x, acts, first, places, parts) && places[0] == start
    && RoundAt(E, ids, x, acts, first && parts == [], places[|parts|]) == Some(Raised(last))
  }

  function Joined(parts: seq<Tokens>): Tokens {
    if parts == [] then [] else parts[0] + Joined(parts[1..])
  }

  /** One more round of a repetition under way. */
  lemma NextRound(g: Table, s: string, E: Oracle, e: Env, start: nat, at: nat, tokens: Tokens)
    requires Lookup(g, e.id).kind.ZeroOrMore? || Lookup(g, e.id).kind.OneOrMore?
    ensures var n := Lookup(g, e.id);
      Value(g, s, E, RepeatNext(g, s, e, start, at, tokens)) ==
      match RoundAt(E, n.ignoreExprs, n.kind.expr, e.acts, false, at)
      case None => None
      case Some(Matched(l, t)) => Value(g, s, E, RepeatNext(g, s, e, start, l, tokens + t))
      case Some(Raised(x)) => Some(Finish(g, s, e, start, if Soft(x) then Matched(at, tokens) else Raised(x)))
  {
    var n := Lookup(g, e.id);
    hide Value, Finish, SkipOutcome;
    var after := ToRepeat(start, tokens, at);
    if n.ignoreExprs == [] {
      AskedAgain(g, s, E, e, start, at, tokens, at);
    } else {
      SkipValue(g, s, E, e, at, after);
      var r := SkipOutcome(E, n.ignoreExprs, at);
      if r.Some? {
        SkipNotSoft(E, n.ignoreExprs, at);
        if r.value.Matched? {
          AskedAgain(g, s, E, e, start, at, tokens, r.value.loc);
        } else {
          ValueOfReturn(g, s, E, Finish(g, s, e, start, if Soft(r.value.exc) then Matched(at, tokens) else r.value));
        }
      }
    }
  }

  /** Skipping never ends in an ordinary failure. */
  lemma SkipNotSoft(E: Oracle, ids: seq<Id>, loc: nat)
    requires ids != []
    ensures var r := SkipOutcome(E, ids, loc); r.Some? && r.value.Raised? ==> !r.value.exc.ParseError?
  {
    hide SkipSteps;
    if n: nat :| SkipSteps(E, ids, 0, false, loc, n).Some? && SkipOutcome(E, ids, loc) == SkipSteps(E, ids, 0, false, loc, n) {
      StepsNotSoft(E, ids, 0, false, loc, n);
    }
  }

  lemma {:induction false} StepsNotSoft(E: Oracle, ids: seq<Id>, i: nat, found: bool, loc: nat, n: nat)
    requires ids != []
    ensures var r := SkipSteps(E, ids, i, found, loc, n); r.Some? && r.value.Raised? ==> !r.value.exc.ParseError?
    decreases n
  {
    if !(i >= |ids| && !found) && n > 0 {
      var (j, again) := if i < |ids| then (i, found) else (0, false);
      var r := E(Call(ids[j], loc, true, true));
      if r.Some? && r.value.Matched? {
        StepsNotSoft(E, ids, j, true, r.value.loc, n - 1);
      } else if r.Some? && r.value.exc.ParseError? {
        StepsNotSoft(E, ids, j + 1, again, loc, n - 1);
      }
    }
  }

  lemma AskedAgain(g: Table, s: string, E: Oracle, e: Env, start: nat, at: nat, tokens: Tokens, loc: nat)
    requires Lookup(g, e.id).kind.ZeroOrMore? || Lookup(g, e.id).kind.OneOrMore?
    ensures Value(g, s, E, AskAgain(g, e, start, at, tokens, loc)) ==
      match E(Call(Lookup(g, e.id).kind.expr, loc, e.acts, true))
      case None => None
      case Some(Matched(l, t)) => Value(g, s, E, RepeatNext(g, s, e, start, l, tokens + t))
      case Some(Raised(x)) => Some(Finish(g, s, e, start, if Soft(x) then Matched(at, tokens) else Raised(x)))
  {
    hide Value, Finish, RepeatNext;
    var c, k := Call(Lookup(g, e.id).kind.expr, loc, e.acts, true), InRepeat(e, start, at, tokens, false);
    ValueOfAsk(g, s, E, c, k);
    if E(c).Some? && E(c).value.Raised? {
      var x := E(c).value.exc;
      ValueOfReturn(g, s, E, Finish(g, s, e, start, if Soft(x) then Matched(at, tokens) else Raised(x)));
    }
  }

  lemma RoundsTail(E: Oracle, ids: seq<Id>, x: Id, acts: bool, first: bool, start: nat, places: seq<nat>, parts: seq<Tokens>, last: Exc)
    requires Repeats(E, ids, x, acts, first, start, places, parts, last) && parts != []
    ensures RoundAt(E, ids, x, acts, first, start) == Some(Matched(places[1], parts[0]))
    ensures Repeats(E, ids, x, acts, false, places[1], places[1..], parts[1..], last)
  {
    hide RoundAt;
    var rest, later := parts[1..], places[1..];
    assert RoundAt(E, ids, x, acts, first && 0 == 0, places[0]) == Some(Matched(places[0 + 1], parts[0]));
    forall i | 0 <= i < |rest| ensures RoundAt(E, ids, x, acts, false, later[i]) == Some(Matched(later[i + 1], rest[i])) {
      assert RoundAt(E, ids, x, acts, first && i + 1 == 0, places[i + 1]) == Some(Matched(places[i + 1 + 1], parts[i + 1]));
    }
  }

  lemma RoundsBefore(E: Oracle, ids: seq<Id>, x: Id, acts: bool, first: bool, start: nat, t: Tokens, places: seq<nat>, parts: seq<Tokens>, last: Exc)
    requires places != [] && RoundAt(E, ids, x, acts, first, start) == Some(Matched(places[0], t))
    requires Repeats(E, ids, x, acts, false, places[0], places, parts, last)
    ensures Repeats(E, ids, x, acts, first, start, [start] + places, [t] + parts, last)
  {
    hide RoundAt;
    var all, whole := [start] + places, [t] + parts;
    forall i | 0 <= i < |whole| ensures RoundAt(E, ids, x, acts, first && i == 0, all[i]) == Some(Matched(all[i + 1], whole[i])) {
      if i > 0 {
        assert RoundAt(E, ids, x, acts, false && i - 1 == 0, places[i - 1]) == Some(Matched(places[i - 1 + 1], parts[i - 1]));
      }
    }
  }

  /** How a repetition under way ends, given its rounds. */
  lemma {:induction false} RoundsRun(g: Table, s: string, E: Oracle, e: Env, start: nat, at: nat, tokens: Tokens,
    places: seq<nat>, parts: seq<Tokens>, last: Exc)
    requires Lookup(g, e.id).kind.ZeroOrMore? || Lookup(g, e.id).kind.OneOrMore?
    requires Repeats(E, Lookup(g, e.id).ignoreExprs, Lookup(g, e.id).kind.expr, e.acts, false, at, places, parts, last)
    ensures Value(g, s, E, RepeatNext(g, s, e, start, at, tokens)) ==
      Some(Finish(g, s, e, start, if Soft(last) then Matched(places[|parts|], tokens + Joined(parts)) else Raised(last)))
    decreases |parts|
  {
    var n := Lookup(g, e.id);
    hide Value, Finish, RepeatNext, RoundAt;
    NextRound(g, s, E, e, start, at, tokens);
    if parts == [] {
      assert tokens + Joined([]) == tokens;
    } else {
      RoundsTail(E, n.ignoreExprs, n.kind.expr, e.acts, false, at, places, parts, last);
      RoundsRun(g, s, E, e, start, places[1], tokens + parts[0], places[1..], parts[1..], last);
      assert tokens + (parts[0] + Joined(parts[1..])) == tokens + parts[0] + Joined(parts[1..]);
    }
  }

  lemma OneRound(g: Table, s: string, E: Oracle, e: Env, start: nat, at: nat, tokens: Tokens, n: nat) returns (m: nat)
    requires Lookup(g, e.id).kind.ZeroOrMore? || Lookup(g, e.id).kind.OneOrMore?
    requires Consult(g, s, E, RepeatNext(g, s, e, start, at, tokens), n).Some?
    ensures var r := RoundAt(E, Lookup(g, e.id).ignoreExprs, Lookup(g, e.id).kind.expr, e.acts, false, at);
      r.Some? && (r.value.Matched? ==> m < n && Consult(g, s, E, RepeatNext(g, s, e, start, r.value.loc, tokens + r.value.tokens), m).Some?)
  {
    var ids, after := Lookup(g, e.id).ignoreExprs, ToRepeat(start, tokens, at);
    if ids == [] {
      m := AskedOnce(g, s, E, e, start, at, tokens, at, n);
    } else {
      var k := SkipEnds(g, s, E, e, 0, false, at, after, n);
      SkipOutcomeIs(E, ids, at, n);
      hide SkipSteps, SkipOutcome, Skip, Consult;
      m := k;
      if SkipOutcome(E, ids, at).value.Matched? {
        m := AskedOnce(g, s, E, e, start, at, tokens, SkipOutcome(E, ids, at).value.loc, k);
      }
    }
  }

  lemma AskedOnce(g: Table, s: string, E: Oracle, e: Env, start: nat, at: nat, tokens: Tokens, loc: nat, n: nat) returns (m: nat)
    requires Lookup(g, e.id).kind.ZeroOrMore? || Lookup(g, e.id).kind.OneOrMore?
    requires Consult(g, s, E, AskAgain(g, e, start, at, tokens, loc), n).Some?
    ensures var r := E(Call(Lookup(g, e.id).kind.expr, loc, e.acts, true));
      r.Some? && (r.value.Matched? ==> m < n && Consult(g, s, E, RepeatNext(g, s, e, start, r.value.loc, tokens + r.value.tokens), m).Some?)
  {
    m := n - 1;
  }

  /** A repetition that ends has gone through some rounds. */
  lemma {:induction false} RoundsExist(g: Table, s: string, E: Oracle, e: Env, start: nat, at: nat, tokens: Tokens, n: nat)
    returns (places: seq<nat>, parts: seq<Tokens>, last: Exc)
    requires Lookup(g, e.id).kind.ZeroOrMore? || Lookup(g, e.id).kind.OneOrMore?
    requires Consult(g, s, E, RepeatNext(g, s, e, start, at, tokens), n).Some?
    ensures Repeats(E, Lookup(g, e.id).ignoreExprs, Lookup(g, e.id).kind.expr, e.acts, false, at, places, parts, last)
    decreases n
  {
    var ids, x := Lookup(g, e.id).ignoreExprs, Lookup(g, e.id).kind.expr;
    var m := OneRound(g, s, E, e, start, at, tokens, n);
    hide Consult, RepeatNext, RoundAt;
    var r := RoundAt(E, ids, x, e.acts, false, at);
    if r.value.Matched? {
      places, parts, last := RoundsExist(g, s, E, e, start, r.value.loc, tokens + r.value.tokens, m);
      RoundsBefore(E, ids, x, e.acts, false, at, r.value.tokens, places, parts, last);
      places, parts := [at] + places, [r.value.tokens] + parts;
    } else {
      places, parts, last := [at], [], r.value.exc;
    }
  }

  /** What the rounds of a repetition, from its first on, make of it. */
  lemma RepeatsRun(g: Table, s: string, E: Oracle, e: Env, start: nat, places: seq<nat>, parts: seq<Tokens>, last: Exc)
    requires Lookup(g, e.id).kind.ZeroOrMore? || Lookup(g, e.id).kind.OneOrMore?
    requires Repeats(E, Lookup(g, e.id).ignoreExprs, Lookup(g, e.id).kind.expr, e.acts, true, start, places, parts, last)
    ensures Value(g, s, E, Impl(g, s, e, start)) ==
      Some(Finish(g, s, e, start,
        if Soft(last) && !(parts == [] && Lookup(g, e.id).kind.OneOrMore?) then Matched(places[|parts|], Joined(parts)) else Raised(last)))
  {
    var n := Lookup(g, e.id);
    hide Value, Finish, RepeatNext, RoundAt, Impl;
    FirstRound(g, s, E, e, start);
    if parts != [] {
      RoundsTail(E, n.ignoreExprs, n.kind.expr, e.acts, true, start, places, parts, last);
      RoundsRun(g, s, E, e, start, places[1], parts[0], places[1..], parts[1..], last);
    } else {
      assert Joined(parts) == [];
    }
  }

  lemma FirstRound(g: Table, s: string, E: Oracle, e: Env, start: nat)
    requires Lookup(g, e.id).kind.ZeroOrMore? || Lookup(g, e.id).kind.OneOrMore?
    ensures var n := Lookup(g, e.id);
      Value(g, s, E, Impl(g, s, e, start)) ==
      match RoundAt(E, n.ignoreExprs, n.kind.expr, e.acts, true, start)
      case None => None
      case Some(Matched(l, t)) => Value(g, s, E, RepeatNext(g, s, e, start, l, t))
      case Some(Raised(x)) =>
        Some(Finish(g, s, e, start, if Soft(x) && !n.kind.OneOrMore? then Matched(start, []) else Raised(x)))
  {
    var c, k := Call(Lookup(g, e.id).kind.expr, start, e.acts, false), InRepeat(e, start, start, [], true);
    hide Value, Finish, RepeatNext, SkipAll;
    ValueOfAsk(g, s, E, c, k);
    if E(c).Some? {
      if E(c).value.Matched? {
        assert [] + E(c).value.tokens == E(c).value.tokens;
      } else {
        var x := E(c).value.exc;
        ValueOfReturn(g, s, E, Finish(g, s, e, start, if Soft(x) && !Lookup(g, e.id).kind.OneOrMore? then Matched(start, []) else Raised(x)));
      }
    }
  }

  lemma RepeatsExist(g: Table, s: string, E: Oracle, e: Env, start: nat) returns (places: seq<nat>, parts: seq<Tokens>, last: Exc)
    requires Lookup(g, e.id).kind.ZeroOrMore? || Lookup(g, e.id).kind.OneOrMore?
    requires Value(g, s, E, Impl(g, s, e, start)).Some?
    ensures Repeats(E, Lookup(g, e.id).ignoreExprs, Lookup(g, e.id).kind.expr, e.acts, true, start, places, parts, last)
  {
    var ids, x := Lookup(g, e.id).ignoreExprs, Lookup(g, e.id).kind.expr;
    var c, k := Call(x, start, e.acts, false), InRepeat(e, start, start, [], true);
    hide RepeatNext, SkipAll;
    var n: nat :| Consult(g, s, E, Impl(g, s, e, start), n).Some?;
    assert Impl(g, s, e, start) == Ask(c, k);
    var o := E(c).value;
    if o.Matched? {
      places, parts, last := RoundsExist(g, s, E, e, start, o.loc, [] + o.tokens, n - 1);
      RoundsBefore(E, ids, x, e.acts, true, start, o.tokens, places, parts, last);
      places, parts := [start] + places, [o.tokens] + parts;
    } else {
      places, parts, last := [start], [], o.exc;
    }
  }

  /** Zero or more: the element matched from place to place until it failed; the outcome is the last
      place with all tokens, or a failure of the kind that ends a parse. */
  lemma ZeroOrMoreLaw(g: Table, s: string, c: Call, start: nat, x: Id, o: Outcome)
    requires Starts(g, s, c, start) && Bare(Lookup(g, c.id)) && Lookup(g, c.id).kind == ZeroOrMore(x)
    ensures Meaning(g, s, c) == Some(o) <==>
      exists places, parts, last ::
        && Repeats(Meant(g, s), Lookup(g, c.id).ignoreExprs, x, c.acts, true, start, places, parts, last)
        && o == if last.ParseError? || last.IndexFailure? then Matched(places[|parts|], Joined(parts)) else Raised(last)
  {
    var E, e, n := Meant(g, s), Env(c.id, c.loc, c.acts), Lookup(g, c.id);
    StartsValue(g, s, c, start);
    hide Meaning, Value, Impl, Finish, Starts, Repeats;
    forall places, parts, last | Repeats(E, n.ignoreExprs, x, c.acts, true, start, places, parts, last)
      ensures Meaning(g, s, c) == Some(if Soft(last) then Matched(places[|parts|], Joined(parts)) else Raised(last))
    {
      RepeatsRun(g, s, E, e, start, places, parts, last);
      var r := if Soft(last) then Matched(places[|parts|], Joined(parts)) else Raised(last);
      BareFinish(g, s, e, start, r);
    }
    if Meaning(g, s, c) == Some(o) {
      var places, parts, last := RepeatsExist(g, s, E, e, start);
    }
  }

  /** One or more: the same, but failing at once it fails as the element did. */
  lemma OneOrMoreLaw(g: Table, s: string, c: Call, start: nat, x: Id, o: Outcome)
    requires Starts(g, s, c, start) && Bare(Lookup(g, c.id)) && Lookup(g, c.id).kind == OneOrMore(x)
    ensures Meaning(g, s, c) == Some(o) <==>
      exists places, parts, last ::
        && Repeats(Meant(g, s), Lookup(g, c.id).ignoreExprs, x, c.acts, true, start, places, parts, last)
        && o ==
          if parts == [] then Raised(Reported(Lookup(g, c.id), s, c.loc, last))
          else if last.ParseError? || last.IndexFailure? then Matched(places[|parts|], Joined(parts))
          else Raised(last)
  {
    var E, e, n := Meant(g, s), Env(c.id, c.loc, c.acts), Lookup(g, c.id);
    StartsValue(g, s, c, start);
    hide Meaning, Value, Impl, Finish, Starts, Repeats;
    forall places, parts, last | Repeats(E, n.ignoreExprs, x, c.acts, true, start, places, parts, last)
      ensures Meaning(g, s, c) == Some(
        if parts == [] then Raised(Reported(n, s, c.loc, last))
        else if Soft(last) then Matched(places[|parts|], Joined(parts)) else Raised(last))
    {
      RepeatsRun(g, s, E, e, start, places, parts, last);
      var r := if Soft(last) && parts != [] then Matched(places[|parts|], Joined(parts)) else Raised(last);
      BareFinish(g, s, e, start, r);
    }
    if Meaning(g, s, c) == Some(o) {
      var places, parts, last := RepeatsExist(g, s, E, e, start);
    }
  }
}
