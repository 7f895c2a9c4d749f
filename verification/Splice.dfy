/** Sequences and alternatives on given answers, and what happens to their outcome when one
    member that is itself such a list is replaced by its own members. */
module Splice {
  import opened Results
  import opened Grammar
  import opened Meanings

  /** An index error inside a composed element counts as a failure at the end of the text. */
  function Settle(s: string, r: Option<Outcome>): Option<Outcome> {
    if r == Some(Raised(IndexFailure)) then Some(Raised(ParseError(|s|))) else r
  }

  /** The table, the text, the answers and whether actions run. */
  datatype World = World(g: Table, s: string, E: Oracle, acts: bool)

  predicate IsStop(g: Table, id: Id) {
    Lookup(g, id).kind.ErrorStop?
  }

  predicate HasStop(g: Table, ids: seq<Id>) {
    exists i :: 0 <= i < |ids| && IsStop(g, ids[i])
  }

  // ----- sequences -----

  /** Behind an error stop failures are syntax errors. */
  function Blame(s: string, stop: bool, r: Option<Outcome>): Option<Outcome> {
    if stop && r.Some? && r.value.Raised? then Some(Raised(Stopped(s, r.value.exc))) else r
  }

  function Prepend(tokens: Tokens, r: Option<Outcome>): Option<Outcome> {
    if r.Some? && r.value.Matched? then Some(Matched(r.value.loc, tokens + r.value.tokens)) else r
  }

  /** What a member gives in the middle of a sequence. */
  function Member(w: World, id: Id, loc: nat, tokens: Tokens, stop: bool): Option<Outcome> {
    Prepend(tokens, Blame(w.s, stop, w.E(Call(id, loc, w.acts, true))))
  }

  /** The members of a sequence from its second one on. */
  function AndRun(w: World, ids: seq<Id>, loc: nat, tokens: Tokens, stop: bool): Option<Outcome> {
    if ids == [] then Some(Matched(loc, tokens))
    else if IsStop(w.g, ids[0]) then AndRun(w, ids[1..], loc, tokens, true)
    else
      match Member(w, ids[0], loc, tokens, stop)
      case None => None
      case Some(Raised(x)) => Some(Raised(x))
      case Some(Matched(l, t)) => AndRun(w, ids[1..], l, t, stop)
  }

  /** Go on with more members unless the outcome so far is a failure. */
  function AndThen(w: World, r: Option<Outcome>, ids: seq<Id>, stop: bool): Option<Outcome> {
    if r.Some? && r.value.Matched? then AndRun(w, ids, r.value.loc, r.value.tokens, stop) else r
  }

  /** A whole sequence: the first member does not skip leading material again. */
  function AndList(w: World, ids: seq<Id>, loc: nat): Option<Outcome> {
    if ids == [] then Some(Raised(IndexFailure))
    else AndThen(w, w.E(Call(ids[0], loc, w.acts, false)), ids[1..], false)
  }

  lemma {:induction false} AndSplit(w: World, xs: seq<Id>, ys: seq<Id>, loc: nat, tokens: Tokens, stop: bool)
    ensures AndRun(w, xs + ys, loc, tokens, stop) ==
            AndThen(w, AndRun(w, xs, loc, tokens, stop), ys, stop || HasStop(w.g, xs))
    decreases |xs|
  {
    if xs == [] {
      assert xs + ys == ys;
    } else {
      assert (xs + ys)[1..] == xs[1..] + ys && (xs + ys)[0] == xs[0];
      HasStopCons(w.g, xs);
      hide HasStop, IsStop, Member;
      var r := Member(w, xs[0], loc, tokens, stop);
      if IsStop(w.g, xs[0]) {
        AndSplit(w, xs[1..], ys, loc, tokens, true);
      } else if r.Some? && r.value.Matched? {
        AndSplit(w, xs[1..], ys, r.value.loc, r.value.tokens, stop);
      }
    }
  }

  lemma HasStopCons(g: Table, ids: seq<Id>)
    requires ids != []
    ensures HasStop(g, ids) <==> IsStop(g, ids[0]) || HasStop(g, ids[1..])
  {
    hide IsStop;
    if i :| 0 <= i < |ids| && IsStop(g, ids[i]) { assert i > 0 ==> ids[1..][i - 1] == ids[i]; }
    if i :| 0 <= i < |ids[1..]| && IsStop(g, ids[1..][i]) { assert ids[i + 1] == ids[1..][i]; }
  }

  lemma StopAppend(g: Table, zs: seq<Id>, xs: seq<Id>)
    ensures HasStop(g, zs + xs) <==> HasStop(g, zs) || HasStop(g, xs)
  {
    hide IsStop;
    var all := zs + xs;
    if i :| 0 <= i < |all| && IsStop(g, all[i]) {
      assert i < |zs| ==> zs[i] == all[i];
      assert i >= |zs| ==> xs[i - |zs|] == all[i];
    }
    if i :| 0 <= i < |zs| && IsStop(g, zs[i]) { assert all[i] == zs[i]; }
    if i :| 0 <= i < |xs| && IsStop(g, xs[i]) { assert all[|zs| + i] == xs[i]; }
  }

  lemma ThenSplit(w: World, r: Option<Outcome>, xs: seq<Id>, ys: seq<Id>, stop: bool)
    ensures AndThen(w, r, xs + ys, stop) == AndThen(w, AndThen(w, r, xs, stop), ys, stop || HasStop(w.g, xs))
  {
    hide AndRun, HasStop;
    if r.Some? && r.value.Matched? { AndSplit(w, xs, ys, r.value.loc, r.value.tokens, stop); }
  }

  lemma {:induction false} AndPrepend(w: World, ids: seq<Id>, loc: nat, a: Tokens, b: Tokens, stop: bool)
    ensures AndRun(w, ids, loc, a + b, stop) == Prepend(a, AndRun(w, ids, loc, b, stop))
    decreases |ids|
  {
    if ids != [] {
      if IsStop(w.g, ids[0]) {
        AndPrepend(w, ids[1..], loc, a, b, true);
      } else {
        var r := Blame(w.s, stop, w.E(Call(ids[0], loc, w.acts, true)));
        if r.Some? && r.value.Matched? {
          AndPrepend(w, ids[1..], r.value.loc, a, b + r.value.tokens, stop);
          assert a + b + r.value.tokens == a + (b + r.value.tokens);
        }
      }
    }
  }

  /** Blaming the whole run is running behind the stop. */
  lemma {:induction false} AndBlame(w: World, ids: seq<Id>, loc: nat, tokens: Tokens, stop: bool)
    ensures Blame(w.s, true, AndRun(w, ids, loc, tokens, stop)) == AndRun(w, ids, loc, tokens, true)
    decreases |ids|
  {
    if ids != [] {
      if IsStop(w.g, ids[0]) {
        AndBlame(w, ids[1..], loc, tokens, true);
      } else {
        var r := Member(w, ids[0], loc, tokens, stop);
        if r.Some? && r.value.Matched? { AndBlame(w, ids[1..], r.value.loc, r.value.tokens, stop); }
      }
    }
  }

  /** A stop behind which no member comes before the next stop makes no difference. */
  lemma StopUnused(w: World, r: Option<Outcome>, ids: seq<Id>, stop: bool)
    requires ids == [] || IsStop(w.g, ids[0])
    ensures AndThen(w, r, ids, stop) == AndThen(w, r, ids, true)
  {
  }

  lemma SettleThen(w: World, r: Option<Outcome>, r': Option<Outcome>, ids: seq<Id>, stop: bool)
    requires Settle(w.s, r) == Settle(w.s, r')
    ensures Settle(w.s, AndThen(w, r, ids, stop)) == Settle(w.s, AndThen(w, r', ids, stop))
  {
    hide AndRun;
  }

  /** The nested sequence asked at `l` gives what its members give in its place, its first one
      skipping leading material for it. */
  ghost predicate Unfolds(w: World, x: Id, xs: seq<Id>)
    requires xs != []
  {
    forall l: nat :: Settle(w.s, w.E(Call(x, l, w.acts, true))) ==
                     Settle(w.s, AndThen(w, w.E(Call(xs[0], l, w.acts, true)), xs[1..], false))
  }

  /** The stops of `xs` can make no difference to `ys`. */
  predicate StopsHeld(g: Table, zs: seq<Id>, xs: seq<Id>, ys: seq<Id>) {
    HasStop(g, xs) ==> ys == [] || IsStop(g, ys[0]) || (zs != [] && HasStop(g, zs[1..]))
  }

  /** A sequence in the first place of a sequence. */
  lemma AndSpliceFirst(w: World, x: Id, xs: seq<Id>, ys: seq<Id>, loc: nat)
    requires xs != [] && StopsHeld(w.g, [], xs[1..], ys)
    requires Settle(w.s, w.E(Call(x, loc, w.acts, false))) == Settle(w.s, AndList(w, xs, loc))
    ensures Settle(w.s, AndList(w, [x] + ys, loc)) == Settle(w.s, AndList(w, xs + ys, loc))
  {
    var r := w.E(Call(xs[0], loc, w.acts, false));
    assert (xs + ys)[1..] == xs[1..] + ys && (xs + ys)[0] == xs[0] && ([x] + ys)[1..] == ys;
    ThenSplit(w, r, xs[1..], ys, false);
    if HasStop(w.g, xs[1..]) { StopUnused(w, AndList(w, xs, loc), ys, false); }
    SettleThen(w, w.E(Call(x, loc, w.acts, false)), AndList(w, xs, loc), ys, false);
    hide AndThen, HasStop, IsStop;
  }

  /** A sequence in a later place of a sequence. */
  lemma AndSpliceLater(w: World, zs: seq<Id>, x: Id, xs: seq<Id>, ys: seq<Id>, loc: nat)
    requires zs != [] && xs != [] && !IsStop(w.g, x) && !IsStop(w.g, xs[0])
    requires StopsHeld(w.g, zs, xs[1..], ys) && Unfolds(w, x, xs)
    ensures Settle(w.s, AndList(w, zs + [x] + ys, loc)) == Settle(w.s, AndList(w, zs + xs + ys, loc))
  {
    var r, stop := AndList(w, zs, loc), HasStop(w.g, zs[1..]);
    LaterSplit(w, zs, [x], ys, loc);
    LaterSplit(w, zs, xs, ys, loc);
    HasStopCons(w.g, [x]);
    HasStopCons(w.g, xs);
    assert !HasStop(w.g, [x]) && HasStop(w.g, xs) == HasStop(w.g, xs[1..]);
    var a, b := AndThen(w, r, [x], stop), AndThen(w, r, xs, stop);
    if r.Some? && r.value.Matched? { LaterHere(w, x, xs, r.value.loc, r.value.tokens, stop); }
    assert Settle(w.s, a) == Settle(w.s, b);
    if HasStop(w.g, xs) && !stop { StopUnused(w, b, ys, false); }
    SettleThen(w, a, b, ys, stop);
    hide AndThen, HasStop, IsStop, AndList, Unfolds;
  }

  lemma LaterSplit(w: World, zs: seq<Id>, xs: seq<Id>, ys: seq<Id>, loc: nat)
    requires zs != []
    ensures var stop := HasStop(w.g, zs[1..]);
            AndList(w, zs + xs + ys, loc) ==
            AndThen(w, AndThen(w, AndList(w, zs, loc), xs, stop), ys, stop || HasStop(w.g, xs))
  {
    var all := zs + xs + ys;
    assert all[0] == zs[0] && all[1..] == zs[1..] + (xs + ys);
    hide AndThen, HasStop;
    ThenSplit(w, w.E(Call(zs[0], loc, w.acts, false)), zs[1..], xs + ys, false);
    ThenSplit(w, AndList(w, zs, loc), xs, ys, HasStop(w.g, zs[1..]));
  }

  lemma MemberThen(w: World, r: Option<Outcome>, ids: seq<Id>, tokens: Tokens, stop: bool)
    ensures AndThen(w, Prepend(tokens, Blame(w.s, stop, r)), ids, stop) ==
            Prepend(tokens, Blame(w.s, stop, AndThen(w, r, ids, false)))
  {
    hide AndRun;
    if r.Some? && r.value.Matched? {
      AndPrepend(w, ids, r.value.loc, tokens, r.value.tokens, stop);
      if stop { AndBlame(w, ids, r.value.loc, r.value.tokens, false); }
    }
  }

  lemma MemberFirst(w: World, ids: seq<Id>, loc: nat, tokens: Tokens, stop: bool)
    requires ids != [] && !IsStop(w.g, ids[0])
    ensures AndRun(w, ids, loc, tokens, stop) == AndThen(w, Member(w, ids[0], loc, tokens, stop), ids[1..], stop)
  {
    hide Member, IsStop;
  }

  lemma MemberOnly(w: World, x: Id, loc: nat, tokens: Tokens, stop: bool)
    requires !IsStop(w.g, x)
    ensures AndRun(w, [x], loc, tokens, stop) == Member(w, x, loc, tokens, stop)
  {
    MemberFirst(w, [x], loc, tokens, stop);
    assert [x][1..] == [];
    hide Member, IsStop;
  }

  lemma LaterHere(w: World, x: Id, xs: seq<Id>, loc: nat, tokens: Tokens, stop: bool)
    requires xs != [] && !IsStop(w.g, x) && !IsStop(w.g, xs[0]) && Unfolds(w, x, xs)
    ensures Settle(w.s, AndRun(w, [x], loc, tokens, stop)) == Settle(w.s, AndRun(w, xs, loc, tokens, stop))
  {
    var q, r := w.E(Call(x, loc, w.acts, true)), w.E(Call(xs[0], loc, w.acts, true));
    assert Settle(w.s, q) == Settle(w.s, AndThen(w, r, xs[1..], false));
    hide AndRun, AndThen, Unfolds, IsStop;
    MemberOnly(w, x, loc, tokens, stop);
    MemberFirst(w, xs, loc, tokens, stop);
    MemberThen(w, r, xs[1..], tokens, stop);
  }

  // ----- first match -----

  /** Either the outcome that ends the search, or the furthest failure so far. */
  datatype Sweep = Stop(outcome: Outcome) | Furthest(at: Option<nat>)

  function FirstSweep(E: Oracle, s: string, ids: seq<Id>, start: nat, at: Option<nat>, acts: bool): Option<Sweep> {
    if ids == [] then Some(Furthest(at))
    else
      match E(Call(ids[0], start, acts, true))
      case None => None
      case Some(o) =>
        if o.Matched? || FailureAt(s, o.exc).None? then Some(Stop(o))
        else FirstSweep(E, s, ids[1..], start, Further(at, FailureAt(s, o.exc).value), acts)
  }

  function SweepOutcome(start: nat, r: Option<Sweep>): Option<Outcome> {
    match r
    case None => None
    case Some(Stop(o)) => Some(o)
    case Some(Furthest(at)) => Some(NoneMatched(start, at))
  }

  function FirstRun(E: Oracle, s: string, ids: seq<Id>, start: nat, acts: bool): Option<Outcome> {
    SweepOutcome(start, FirstSweep(E, s, ids, start, None, acts))
  }

  function Join(a: Option<nat>, b: Option<nat>): Option<nat> {
    if b.None? then a else Further(a, b.value)
  }

  function ThenSweep(E: Oracle, s: string, r: Option<Sweep>, ids: seq<Id>, start: nat, acts: bool): Option<Sweep> {
    if r.Some? && r.value.Furthest? then FirstSweep(E, s, ids, start, r.value.at, acts) else r
  }

  lemma {:induction false} SweepSplit(E: Oracle, s: string, xs: seq<Id>, ys: seq<Id>, start: nat, at: Option<nat>, acts: bool)
    ensures FirstSweep(E, s, xs + ys, start, at, acts) ==
            ThenSweep(E, s, FirstSweep(E, s, xs, start, at, acts), ys, start, acts)
    decreases |xs|
  {
    if xs == [] {
      assert xs + ys == ys;
    } else {
      assert (xs + ys)[1..] == xs[1..] + ys && (xs + ys)[0] == xs[0];
      var r := E(Call(xs[0], start, acts, true));
      if r.Some? && r.value.Raised? && FailureAt(s, r.value.exc).Some? {
        SweepSplit(E, s, xs[1..], ys, start, Further(at, FailureAt(s, r.value.exc).value), acts);
      }
    }
  }

  function JoinSweep(at: Option<nat>, r: Option<Sweep>): Option<Sweep> {
    if r.Some? && r.value.Furthest? then Some(Furthest(Join(at, r.value.at))) else r
  }

  lemma {:induction false} SweepJoin(E: Oracle, s: string, ids: seq<Id>, start: nat, a: Option<nat>, b: Option<nat>, acts: bool)
    ensures FirstSweep(E, s, ids, start, Join(a, b), acts) == JoinSweep(a, FirstSweep(E, s, ids, start, b, acts))
    ensures (ids != [] || b.Some?) && FirstSweep(E, s, ids, start, b, acts).Some? &&
            FirstSweep(E, s, ids, start, b, acts).value.Furthest?
            ==> FirstSweep(E, s, ids, start, b, acts).value.at.Some?
    decreases |ids|
  {
    if ids != [] {
      var r := E(Call(ids[0], start, acts, true));
      if r.Some? && r.value.Raised? && FailureAt(s, r.value.exc).Some? {
        var m := FailureAt(s, r.value.exc).value;
        assert Further(Join(a, b), m) == Join(a, Further(b, m));
        SweepJoin(E, s, ids[1..], start, a, Further(b, m), acts);
      }
    }
  }

  lemma {:induction false} SweepStops(E: Oracle, s: string, ids: seq<Id>, start: nat, at: Option<nat>, acts: bool)
    requires FirstSweep(E, s, ids, start, at, acts).Some? && FirstSweep(E, s, ids, start, at, acts).value.Stop?
    ensures var o := FirstSweep(E, s, ids, start, at, acts).value.outcome; o.Matched? || FailureAt(s, o.exc).None?
    decreases |ids|
  {
    var r := E(Call(ids[0], start, acts, true));
    if r.value.Raised? && FailureAt(s, r.value.exc).Some? {
      SweepStops(E, s, ids[1..], start, Further(at, FailureAt(s, r.value.exc).value), acts);
    }
  }

  /** Alternatives in the middle of alternatives. */
  lemma FirstSplice(E: Oracle, s: string, zs: seq<Id>, x: Id, xs: seq<Id>, ys: seq<Id>, start: nat, acts: bool)
    requires xs != [] && Settle(s, E(Call(x, start, acts, true))) == Settle(s, FirstRun(E, s, xs, start, acts))
    ensures FirstRun(E, s, zs + [x] + ys, start, acts) == FirstRun(E, s, zs + xs + ys, start, acts)
  {
    hide FirstSweep;
    assert zs + [x] + ys == zs + ([x] + ys) && zs + xs + ys == zs + (xs + ys);
    SweepSplit(E, s, zs, [x] + ys, start, None, acts);
    SweepSplit(E, s, zs, xs + ys, start, None, acts);
    var r := FirstSweep(E, s, zs, start, None, acts);
    if r.Some? && r.value.Furthest? { FirstSpliceHere(E, s, x, xs, ys, start, r.value.at, acts); }
  }

  lemma FirstSpliceHere(E: Oracle, s: string, x: Id, xs: seq<Id>, ys: seq<Id>, start: nat, at: Option<nat>, acts: bool)
    requires xs != [] && Settle(s, E(Call(x, start, acts, true))) == Settle(s, FirstRun(E, s, xs, start, acts))
    ensures FirstSweep(E, s, [x] + ys, start, at, acts) == FirstSweep(E, s, xs + ys, start, at, acts)
  {
    SweepSplit(E, s, xs, ys, start, at, acts);
    SweepJoin(E, s, xs, start, at, None, acts);
    var r := FirstSweep(E, s, xs, start, None, acts);
    if r.Some? && r.value.Stop? { SweepStops(E, s, xs, start, None, acts); }
    assert ([x] + ys)[1..] == ys && ([x] + ys)[0] == x;
  }

  // ----- longest match -----

  /** The furthest failure and the longest match among the trials so far. */
  datatype Tally = Tally(furthest: Option<nat>, best: Option<(nat, Id)>)

  const Untried := Tally(None, None)

  function Tallied(s: string, start: nat, id: Id, o: Outcome, t: Tally): Tally {
    var u := Trial(start, o);
    if u.Matched? then
      if t.best.None? || u.loc > t.best.value.0 then t.(best := Some((u.loc, id))) else t
    else t.(furthest := Further(t.furthest, if u.exc.ParseError? then u.exc.loc else |s|))
  }

  function Trials(E: Oracle, s: string, ids: seq<Id>, start: nat, t: Tally): Option<Tally> {
    if ids == [] then Some(t)
    else
      match E(Call(ids[0], start, false, true))
      case None => None
      case Some(o) => Trials(E, s, ids[1..], start, Tallied(s, start, ids[0], o, t))
  }

  function Chosen(E: Oracle, start: nat, acts: bool, t: Tally): Option<Outcome> {
    if t.best.None? then Some(NoneMatched(start, t.furthest)) else E(Call(t.best.value.1, start, acts, true))
  }

  function OrRun(E: Oracle, s: string, ids: seq<Id>, start: nat, acts: bool): Option<Outcome> {
    match Trials(E, s, ids, start, Untried)
    case None => None
    case Some(t) => Chosen(E, start, acts, t)
  }

  function Merge(t: Tally, u: Tally): Tally {
    Tally(Join(t.furthest, u.furthest),
      if u.best.Some? && (t.best.None? || u.best.value.0 > t.best.value.0) then u.best else t.best)
  }

  lemma {:induction false} TrialsSplit(E: Oracle, s: string, xs: seq<Id>, ys: seq<Id>, start: nat, t: Tally)
    ensures Trials(E, s, xs + ys, start, t) ==
            match Trials(E, s, xs, start, t)
            case None => None
            case Some(u) => Trials(E, s, ys, start, u)
    decreases |xs|
  {
    if xs == [] {
      assert xs + ys == ys;
    } else {
      assert (xs + ys)[1..] == xs[1..] + ys && (xs + ys)[0] == xs[0];
      var r := E(Call(xs[0], start, false, true));
      if r.Some? { TrialsSplit(E, s, xs[1..], ys, start, Tallied(s, start, xs[0], r.value, t)); }
    }
  }

  lemma {:induction false} TrialsMerge(E: Oracle, s: string, ids: seq<Id>, start: nat, t: Tally, u: Tally)
    ensures Trials(E, s, ids, start, Merge(t, u)) ==
            match Trials(E, s, ids, start, u)
            case None => None
            case Some(v) => Some(Merge(t, v))
    decreases |ids|
  {
    if ids != [] {
      var r := E(Call(ids[0], start, false, true));
      if r.Some? {
        var v := Tallied(s, start, ids[0], r.value, u);
        assert Tallied(s, start, ids[0], r.value, Merge(t, u)) == Merge(t, v);
        TrialsMerge(E, s, ids[1..], start, t, v);
      }
    }
  }

  /** The best of some trials is an alternative that did match that far. */
  ghost predicate Backed(E: Oracle, start: nat, t: Tally) {
    t.best.Some? ==>
      (var r := E(Call(t.best.value.1, start, false, true));
      r.Some? && r.value.Matched? && r.value.loc == t.best.value.0)
  }

  lemma {:induction false} TrialsBacked(E: Oracle, s: string, ids: seq<Id>, start: nat, t: Tally)
    requires Backed(E, start, t) && Trials(E, s, ids, start, t).Some?
    ensures Backed(E, start, Trials(E, s, ids, start, t).value)
    ensures ids != [] || t.furthest.Some? || t.best.Some? ==>
              Trials(E, s, ids, start, t).value.furthest.Some? || Trials(E, s, ids, start, t).value.best.Some?
    decreases |ids|
  {
    if ids != [] {
      var r := E(Call(ids[0], start, false, true));
      TrialsBacked(E, s, ids[1..], start, Tallied(s, start, ids[0], r.value, t));
    }
  }

  /** Two tallies that lead to the same choice up to settling. */
  ghost predicate Rival(E: Oracle, s: string, start: nat, acts: bool, t: Tally, u: Tally) {
    && t.best.Some? == u.best.Some?
    && (t.best.None? ==> t.furthest == u.furthest)
    && (t.best.Some? ==> t.best.value.0 == u.best.value.0)
    && Settle(s, Chosen(E, start, acts, t)) == Settle(s, Chosen(E, start, acts, u))
  }

  lemma {:induction false} TrialsRival(E: Oracle, s: string, ids: seq<Id>, start: nat, acts: bool, t: Tally, u: Tally)
    requires Rival(E, s, start, acts, t, u)
    ensures Trials(E, s, ids, start, t).Some? == Trials(E, s, ids, start, u).Some?
    ensures Trials(E, s, ids, start, t).Some? ==>
              Rival(E, s, start, acts, Trials(E, s, ids, start, t).value, Trials(E, s, ids, start, u).value)
    decreases |ids|
  {
    if ids != [] {
      var r := E(Call(ids[0], start, false, true));
      if r.Some? {
        TrialsRival(E, s, ids[1..], start, acts,
          Tallied(s, start, ids[0], r.value, t), Tallied(s, start, ids[0], r.value, u));
      }
    }
  }

  /** Alternatives in the middle of alternatives, when the longest one counts. */
  lemma OrSplice(E: Oracle, s: string, zs: seq<Id>, x: Id, xs: seq<Id>, ys: seq<Id>, start: nat, acts: bool)
    requires xs != []
    requires Settle(s, E(Call(x, start, false, true))) == Settle(s, OrRun(E, s, xs, start, false))
    requires Settle(s, E(Call(x, start, acts, true))) == Settle(s, OrRun(E, s, xs, start, acts))
    ensures Settle(s, OrRun(E, s, zs + [x] + ys, start, acts)) == Settle(s, OrRun(E, s, zs + xs + ys, start, acts))
  {
    hide Trials, Rival;
    assert zs + [x] + ys == zs + ([x] + ys) && zs + xs + ys == zs + (xs + ys);
    TrialsSplit(E, s, zs, [x] + ys, start, Untried);
    TrialsSplit(E, s, zs, xs + ys, start, Untried);
    var r := Trials(E, s, zs, start, Untried);
    if r.Some? {
      TrialsSplit(E, s, [x], ys, start, r.value);
      TrialsSplit(E, s, xs, ys, start, r.value);
      OrSpliceHere(E, s, x, xs, start, acts, r.value);
      var t, u := Trials(E, s, [x], start, r.value), Trials(E, s, xs, start, r.value);
      if t.Some? {
        TrialsRival(E, s, ys, start, acts, t.value, u.value);
        if Trials(E, s, ys, start, t.value).Some? {
          RivalsChoose(E, s, start, acts, Trials(E, s, ys, start, t.value).value, Trials(E, s, ys, start, u.value).value);
        }
      }
    }
  }

  lemma RivalsChoose(E: Oracle, s: string, start: nat, acts: bool, t: Tally, u: Tally)
    requires Rival(E, s, start, acts, t, u)
    ensures Settle(s, Chosen(E, start, acts, t)) == Settle(s, Chosen(E, start, acts, u))
  {
  }

  lemma OrSpliceHere(E: Oracle, s: string, x: Id, xs: seq<Id>, start: nat, acts: bool, t: Tally)
    requires xs != []
    requires Settle(s, E(Call(x, start, false, true))) == Settle(s, OrRun(E, s, xs, start, false))
    requires Settle(s, E(Call(x, start, acts, true))) == Settle(s, OrRun(E, s, xs, start, acts))
    ensures Trials(E, s, [x], start, t).Some? == Trials(E, s, xs, start, t).Some?
    ensures Trials(E, s, [x], start, t).Some? ==>
              Rival(E, s, start, acts, Trials(E, s, [x], start, t).value, Trials(E, s, xs, start, t).value)
  {
    TrialsMerge(E, s, xs, start, t, Untried);
    assert Merge(t, Untried) == t;
    var r := E(Call(x, start, false, true));
    assert r.Some? ==> Trials(E, s, [x], start, t) == Some(Tallied(s, start, x, r.value, t)) by {
      assert [x][1..] == [];
    }
    assert r.None? ==> Trials(E, s, [x], start, t) == None;
    var u := Trials(E, s, xs, start, Untried);
    if u.Some? { TrialsBacked(E, s, xs, start, Untried); }
  }
}
