/** What sequences and alternatives mean, stated on the outcomes of their members. */
module ListLaws {
  import opened Results
  import opened Grammar
  import opened Meanings
  import opened Splice
  import opened Leading
  import opened Streamline
  import opened ElementLaws

  /** A list's outcome is its rule's, reported as any. */
  lemma RunMeans(g: Table, s: string, c: Call, start: nat)
    requires Starts(g, s, c, start) && Bare(Lookup(g, c.id)) && Composite(Lookup(g, c.id).kind)
    ensures var n := Lookup(g, c.id);
      Meaning(g, s, c) ==
      match Run(n.kind, World(g, s, Meant(g, s), c.acts), n.kind.exprs, start)
      case None => None
      case Some(Matched(l, t)) => Some(Matched(l, t))
      case Some(Raised(x)) => Some(Raised(Reported(n, s, c.loc, x)))
  {
    var n, e := Lookup(g, c.id), Env(c.id, c.loc, c.acts);
    StartsValue(g, s, c, start);
    hide Meaning, Value, Impl, Finish, Starts, Run;
    ListValue(g, s, Meant(g, s), e, start);
    var r := Run(n.kind, World(g, s, Meant(g, s), c.acts), n.kind.exprs, start);
    if r.Some? { BareFinish(g, s, e, start, r.value); }
  }

  // ----- sequences -----

  /** What member i gives at a place: an error stop behind the first place nothing at all. */
  function MemberAt(w: World, ids: seq<Id>, i: nat, loc: nat): Option<Outcome>
    requires i < |ids|
  {
    if i > 0 && Lookup(w.g, ids[i]).kind.ErrorStop? then Some(Matched(loc, []))
    else w.E(Call(ids[i], loc, w.acts, i > 0))
  }

  /** The first members matched one after the other. */
  ghost predicate Steps(w: World, ids: seq<Id>, places: seq<nat>, parts: seq<Tokens>) {
    && |places| == |parts| + 1 && |parts| <= |ids|
    && forall i :: 0 <= i < |parts| ==> MemberAt(w, ids, i, places[i]) == Some(Matched(places[i + 1], parts[i]))
  }

  /** The failure of member k, which is a syntax error behind an error stop other than the first member. */
  function Failure(w: World, ids: seq<Id>, k: nat, x: Exc): Exc {
    if (exists i :: 0 < i < k && i < |ids| && Lookup(w.g, ids[i]).kind.ErrorStop?) && !x.SyntaxFailure? then
      SyntaxFailure(match x case ParseError(l) => l case FatalError(l) => l case SyntaxFailure(l) => l case IndexFailure => |w.s|)
    else x
  }

  /** All members matched in turn, or all before one that failed. */
  ghost predicate IsSequence(w: World, ids: seq<Id>, start: nat, o: Outcome) {
    exists places, parts :: Steps(w, ids, places, parts) && places[0] == start && SequenceEnds(w, ids, places, parts, o)
  }

  ghost predicate SequenceEnds(w: World, ids: seq<Id>, places: seq<nat>, parts: seq<Tokens>, o: Outcome)
    requires Steps(w, ids, places, parts)
  {
    var k := |parts|;
    if k == |ids| then o == Matched(places[k], Joined(parts))
    else
      var r := MemberAt(w, ids, k, places[k]);
      r.Some? && r.value.Raised? && o == Raised(Failure(w, ids, k, r.value.exc))
  }

  /** The rest of the sequence, from member k > 0 on. */
  lemma {:induction false} RestRuns(w: World, ids: seq<Id>, k: nat, places: seq<nat>, parts: seq<Tokens>, o: Outcome)
    requires 0 < k <= |parts| && Steps(w, ids, places, parts) && SequenceEnds(w, ids, places, parts, o)
    ensures AndRun(w, ids[k..], places[k], Joined(parts[..k]), HasStop(w.g, ids[1..k])) == Some(o)
    decreases |parts| - k
  {
    var stop := HasStop(w.g, ids[1..k]);
    StopsBefore(w, ids, k);
    if k == |ids| {
      assert parts[..k] == parts && ids[k..] == [];
    } else if k < |parts| {
      assert MemberAt(w, ids, k, places[k]) == Some(Matched(places[k + 1], parts[k]));
      hide Steps, SequenceEnds;
      RestRuns(w, ids, k + 1, places, parts, o);
      StopsNext(w, ids, k);
      JoinedNext(parts, k);
      assert ids[k..][0] == ids[k] && ids[k..][1..] == ids[k + 1..];
      if IsStop(w.g, ids[k]) { assert Joined(parts[..k]) + [] == Joined(parts[..k]); }
    } else {
      assert ids[k..][0] == ids[k];
    }
  }

  lemma StopsBefore(w: World, ids: seq<Id>, k: nat)
    requires 0 < k <= |ids|
    ensures HasStop(w.g, ids[1..k]) <==> exists i :: 0 < i < k && i < |ids| && Lookup(w.g, ids[i]).kind.ErrorStop?
  {
    if i :| 0 < i < k && i < |ids| && Lookup(w.g, ids[i]).kind.ErrorStop? {
      assert ids[1..k][i - 1] == ids[i] && IsStop(w.g, ids[1..k][i - 1]);
    }
    if i :| 0 <= i < |ids[1..k]| && IsStop(w.g, ids[1..k][i]) {
      assert Lookup(w.g, ids[i + 1]).kind.ErrorStop?;
    }
  }

  lemma StopsNext(w: World, ids: seq<Id>, k: nat)
    requires 0 < k < |ids|
    ensures HasStop(w.g, ids[1..k + 1]) <==> HasStop(w.g, ids[1..k]) || IsStop(w.g, ids[k])
  {
    assert ids[1..k + 1] == ids[1..k] + [ids[k]];
    StopAppend(w.g, ids[1..k], [ids[k]]);
    HasStopCons(w.g, [ids[k]]);
    hide HasStop;
  }

  lemma {:induction false} JoinedNext(parts: seq<Tokens>, k: nat)
    requires k < |parts|
    ensures Joined(parts[..k + 1]) == Joined(parts[..k]) + parts[k]
    decreases k
  {
    if k == 0 {
      assert parts[..1] == [parts[0]] && [parts[0]][1..] == [];
    } else {
      JoinedNext(parts[1..], k - 1);
      assert parts[..k + 1][1..] == parts[1..][..k] && parts[..k][1..] == parts[1..][..k - 1];
    }
  }

  /** Whatever the rest comes to, there are steps to it. */
  lemma {:induction false} RestSteps(w: World, ids: seq<Id>, places: seq<nat>, parts: seq<Tokens>)
    returns (places': seq<nat>, parts': seq<Tokens>, o: Outcome)
    requires Steps(w, ids, places, parts) && parts != []
    requires AndRun(w, ids[|parts|..], places[|parts|], Joined(parts), HasStop(w.g, ids[1..|parts|])).Some?
    ensures Steps(w, ids, places', parts') && |places'| > 0 && places'[0] == places[0] && parts' != []
    ensures SequenceEnds(w, ids, places', parts', o)
    decreases |ids| - |parts|
  {
    var k := |parts|;
    StopsBefore(w, ids, k);
    if k == |ids| {
      places', parts', o := places, parts, Matched(places[k], Joined(parts));
    } else {
      var r := MemberAt(w, ids, k, places[k]);
      assert ids[k..][0] == ids[k] && ids[k..][1..] == ids[k + 1..];
      if r.value.Raised? {
        places', parts', o := places, parts, Raised(Failure(w, ids, k, r.value.exc));
      } else {
        var more, further := parts + [r.value.tokens], places + [r.value.loc];
        MoreSteps(w, ids, places, parts, r.value);
        StopsNext(w, ids, k);
        JoinedNext(more, k);
        assert more[..k] == parts && more[..k + 1] == more;
        hide Steps;
        if IsStop(w.g, ids[k]) { assert Joined(parts) + [] == Joined(parts); }
        places', parts', o := RestSteps(w, ids, further, more);
      }
    }
  }

  lemma MoreSteps(w: World, ids: seq<Id>, places: seq<nat>, parts: seq<Tokens>, r: Outcome)
    requires Steps(w, ids, places, parts) && |parts| < |ids|
    requires r.Matched? && MemberAt(w, ids, |parts|, places[|parts|]) == Some(r)
    ensures Steps(w, ids, places + [r.loc], parts + [r.tokens])
  {
    hide MemberAt;
  }

  /** A sequence: its members one after the other, the first without skipping again, error stops
      apart, which turn every later failure into a syntax error. */
  lemma AndLaw(g: Table, s: string, c: Call, start: nat, ids: seq<Id>, o: Outcome)
    requires Starts(g, s, c, start) && Bare(Lookup(g, c.id)) && Lookup(g, c.id).kind == And(ids)
    ensures ids == [] ==> Meaning(g, s, c) == Some(Raised(Reported(Lookup(g, c.id), s, c.loc, IndexFailure)))
    ensures ids != [] ==>
      (Meaning(g, s, c) == Some(o) <==>
        exists r :: IsSequence(World(g, s, Meant(g, s), c.acts), ids, start, r)
          && o == if r.Matched? then r else Raised(Reported(Lookup(g, c.id), s, c.loc, r.exc)))
  {
    var w := World(g, s, Meant(g, s), c.acts);
    hide Meaning, Starts, IsSequence;
    RunMeans(g, s, c, start);
    if ids != [] {
      forall r ensures AndList(w, ids, start) == Some(r) <==> IsSequence(w, ids, start, r) { SequenceIs(w, ids, start, r); }
    }
  }

  lemma SequenceIs(w: World, ids: seq<Id>, start: nat, o: Outcome)
    requires ids != []
    ensures AndList(w, ids, start) == Some(o) <==> IsSequence(w, ids, start, o)
  {
    if IsSequence(w, ids, start, o) {
      var places, parts :| Steps(w, ids, places, parts) && places[0] == start && SequenceEnds(w, ids, places, parts, o);
      SequenceRuns(w, ids, places, parts, o);
    }
    if AndList(w, ids, start) == Some(o) {
      var places, parts, r := SequenceSteps(w, ids, start);
      SequenceRuns(w, ids, places, parts, r);
    }
  }

  lemma SequenceRuns(w: World, ids: seq<Id>, places: seq<nat>, parts: seq<Tokens>, o: Outcome)
    requires ids != [] && Steps(w, ids, places, parts) && SequenceEnds(w, ids, places, parts, o)
    ensures AndList(w, ids, places[0]) == Some(o)
  {
    if parts != [] {
      RestRuns(w, ids, 1, places, parts, o);
      assert MemberAt(w, ids, 0, places[0]) == Some(Matched(places[0 + 1], parts[0]));
      assert parts[..1] == [parts[0]] && [parts[0]][1..] == [] && Joined([parts[0]]) == parts[0];
      assert ids[1..1] == [];
    }
  }

  lemma SequenceSteps(w: World, ids: seq<Id>, start: nat) returns (places: seq<nat>, parts: seq<Tokens>, o: Outcome)
    requires ids != [] && AndList(w, ids, start).Some?
    ensures Steps(w, ids, places, parts) && places[0] == start && SequenceEnds(w, ids, places, parts, o)
  {
    var r := MemberAt(w, ids, 0, start).value;
    if r.Matched? {
      places, parts := [start, r.loc], [r.tokens];
      assert [r.tokens][1..] == [] && Joined([r.tokens]) == r.tokens && ids[1..1] == [];
      places, parts, o := RestSteps(w, ids, places, parts);
    } else {
      places, parts, o := [start], [], Raised(Failure(w, ids, 0, r.exc));
    }
  }

  // ----- the furthest failure -----

  /** `at` is the furthest of the first n places; with none of them it is the start. */
  ghost predicate IsFurthest(failed: nat -> Option<nat>, n: nat, start: nat, at: nat) {
    if n == 0 then at == start
    else (exists i :: 0 <= i < n && failed(i) == Some(at)) && forall i, b :: 0 <= i < n && failed(i) == Some(b) ==> b <= at
  }

  /** The running record of the furthest failure. */
  ghost predicate Records(failed: nat -> Option<nat>, n: nat, furthest: Option<nat>) {
    && (furthest.None? <==> n == 0)
    && (n > 0 ==> IsFurthest(failed, n, 0, furthest.value))
  }

  lemma RecordsNext(failed: nat -> Option<nat>, n: nat, furthest: Option<nat>, at: nat)
    requires Records(failed, n, furthest) && failed(n) == Some(at)
    ensures Records(failed, n + 1, Further(furthest, at))
  {
  }

  lemma FurthestOnce(failed: nat -> Option<nat>, n: nat, start: nat, furthest: Option<nat>, at: nat)
    requires Records(failed, n, furthest)
    ensures IsFurthest(failed, n, start, at) <==> at == if furthest.None? then start else furthest.value
  {
  }

  // ----- first match -----

  /** Where alternative i fails, if it fails so that the next is tried. */
  function FailsAt(E: Oracle, s: string, ids: seq<Id>, start: nat, acts: bool, i: nat): Option<nat> {
    if i >= |ids| then None
    else
      match E(Call(ids[i], start, acts, true))
      case Some(Raised(ParseError(at))) => Some(at)
      case Some(Raised(IndexFailure)) => Some(|s|)
      case _ => None
  }

  /** Alternative k does not fail so, and all before it do. */
  ghost predicate Decides(E: Oracle, s: string, ids: seq<Id>, start: nat, acts: bool, k: nat) {
    && k < |ids| && FailsAt(E, s, ids, start, acts, k).None?
    && forall i :: 0 <= i < k ==> FailsAt(E, s, ids, start, acts, i).Some?
  }

  /** The first alternative that does not fail so decides; if all do, the furthest of their places is
      where the failure is. */
  ghost predicate IsFirstMatch(E: Oracle, s: string, ids: seq<Id>, start: nat, acts: bool, o: Outcome) {
    || (exists k: nat :: Decides(E, s, ids, start, acts, k) && E(Call(ids[k], start, acts, true)) == Some(o))
    || ((forall i :: 0 <= i < |ids| ==> FailsAt(E, s, ids, start, acts, i).Some?)
        && o.Raised? && o.exc.ParseError? && IsFurthest(i => FailsAt(E, s, ids, start, acts, i), |ids|, start, o.exc.loc))
  }

  lemma {:induction false} SweepFrom(E: Oracle, s: string, ids: seq<Id>, start: nat, acts: bool, n: nat, at: Option<nat>, o: Outcome)
    requires n <= |ids| && forall i :: 0 <= i < n ==> FailsAt(E, s, ids, start, acts, i).Some?
    requires Records(i => FailsAt(E, s, ids, start, acts, i), n, at)
    ensures SweepOutcome(start, FirstSweep(E, s, ids[n..], start, at, acts)) == Some(o) <==> IsFirstMatch(E, s, ids, start, acts, o)
    decreases |ids| - n
  {
    var failed := i => FailsAt(E, s, ids, start, acts, i);
    if n == |ids| {
      forall b ensures IsFurthest(failed, n, start, b) <==> b == if at.None? then start else at.value { FurthestOnce(failed, n, start, at, b); }
    } else {
      assert ids[n..][0] == ids[n] && ids[n..][1..] == ids[n + 1..];
      var r := E(Call(ids[n], start, acts, true));
      if failed(n).Some? {
        RecordsNext(failed, n, at, failed(n).value);
        hide IsFirstMatch, Records, IsFurthest;
        SweepFrom(E, s, ids, start, acts, n + 1, Further(at, failed(n).value), o);
      } else {
        hide IsFurthest, Records;
        assert SweepOutcome(start, FirstSweep(E, s, ids[n..], start, at, acts)) == r;
        assert Decides(E, s, ids, start, acts, n);
        assert forall k: nat :: Decides(E, s, ids, start, acts, k) ==> k == n;
      }
    }
  }

  /** The first match among alternatives. */
  lemma MatchFirstLaw(g: Table, s: string, c: Call, start: nat, ids: seq<Id>, o: Outcome)
    requires Starts(g, s, c, start) && Bare(Lookup(g, c.id)) && Lookup(g, c.id).kind == MatchFirst(ids)
    ensures Meaning(g, s, c) == Some(o) <==> IsFirstMatch(Meant(g, s), s, ids, start, c.acts, o)
  {
    var E := Meant(g, s);
    hide Meaning, Starts;
    RunMeans(g, s, c, start);
    assert ids[0..] == ids;
    forall r ensures FirstRun(E, s, ids, start, c.acts) == Some(r) <==> IsFirstMatch(E, s, ids, start, c.acts, r) {
      SweepFrom(E, s, ids, start, c.acts, 0, None, r);
    }
    forall r | IsFirstMatch(E, s, ids, start, c.acts, r) ensures r.Matched? || !r.exc.IndexFailure? {
      NoIndexError(E, s, ids, start, c.acts, r);
    }
    hide IsFirstMatch, FirstRun;
  }

  lemma NoIndexError(E: Oracle, s: string, ids: seq<Id>, start: nat, acts: bool, o: Outcome)
    requires IsFirstMatch(E, s, ids, start, acts, o)
    ensures o.Matched? || !o.exc.IndexFailure?
  {
    hide IsFurthest;
  }

  // ----- longest match -----

  /** Where trial i fails; a fatal failure counts at the start. */
  function TrialFails(E: Oracle, s: string, ids: seq<Id>, start: nat, i: nat): Option<nat> {
    if i >= |ids| then None
    else
      match E(Call(ids[i], start, false, true))
      case Some(Raised(ParseError(at))) => Some(at)
      case Some(Raised(IndexFailure)) => Some(|s|)
      case Some(Raised(_)) => Some(start)
      case _ => None
  }

  /** Where trial i ends, if it matches. */
  function TrialEnds(E: Oracle, ids: seq<Id>, start: nat, i: nat): Option<nat> {
    if i >= |ids| then None
    else
      match E(Call(ids[i], start, false, true))
      case Some(Matched(at, _)) => Some(at)
      case _ => None
  }

  /** Alternative k matches furthest among the first n, and is the first to get there. */
  ghost predicate IsBest(E: Oracle, ids: seq<Id>, start: nat, n: nat, k: nat) {
    && k < n && TrialEnds(E, ids, start, k).Some?
    && forall i, at :: 0 <= i < n && TrialEnds(E, ids, start, i) == Some(at) ==>
        at <= TrialEnds(E, ids, start, k).value && (i < k ==> at < TrialEnds(E, ids, start, k).value)
  }

  /** After all trials: the longest alternative parsed again, for real, or the furthest failure. */
  ghost predicate IsLongest(E: Oracle, s: string, ids: seq<Id>, start: nat, acts: bool, o: Outcome) {
    && (forall i :: 0 <= i < |ids| ==> E(Call(ids[i], start, false, true)).Some?)
    && if exists k: nat :: IsBest(E, ids, start, |ids|, k)
       then exists k: nat :: IsBest(E, ids, start, |ids|, k) && E(Call(ids[k], start, acts, true)) == Some(o)
       else o.Raised? && o.exc.ParseError? && FurthestTrial(E, s, ids, start, o.exc.loc)
  }

  ghost predicate FurthestTrial(E: Oracle, s: string, ids: seq<Id>, start: nat, at: nat) {
    IsFurthest(i => TrialFails(E, s, ids, start, i), |ids|, start, at)
  }

  /** What is known after n trials. */
  ghost predicate Tried(E: Oracle, s: string, ids: seq<Id>, start: nat, n: nat, t: Tally) {
    && n <= |ids| && (forall i :: 0 <= i < n ==> E(Call(ids[i], start, false, true)).Some?)
    && (t.best.None? ==> NoneEnds(E, ids, start, n) && Records(i => TrialFails(E, s, ids, start, i), n, t.furthest))
    && (t.best.Some? ==> exists k: nat :: IsBest(E, ids, start, n, k) && BestIs(E, ids, start, k, t.best.value))
  }

  ghost predicate NoneEnds(E: Oracle, ids: seq<Id>, start: nat, n: nat) {
    forall i :: 0 <= i < n ==> TrialEnds(E, ids, start, i).None?
  }

  ghost predicate BestIs(E: Oracle, ids: seq<Id>, start: nat, k: nat, best: (nat, Id)) {
    k < |ids| && ids[k] == best.1 && TrialEnds(E, ids, start, k) == Some(best.0)
  }

  lemma TriedNext(E: Oracle, s: string, ids: seq<Id>, start: nat, n: nat, t: Tally, o: Outcome)
    requires Tried(E, s, ids, start, n, t) && n < |ids| && E(Call(ids[n], start, false, true)) == Some(o)
    ensures Tried(E, s, ids, start, n + 1, Tallied(s, start, ids[n], o, t))
  {
    var failed, next := i => TrialFails(E, s, ids, start, i), Tallied(s, start, ids[n], o, t);
    if o.Raised? && t.best.None? {
      RecordsNext(failed, n, t.furthest, failed(n).value);
    } else if t.best.Some? {
      var k: nat :| IsBest(E, ids, start, n, k) && BestIs(E, ids, start, k, t.best.value);
      hide Records;
      if o.Matched? && o.loc > t.best.value.0 {
        assert IsBest(E, ids, start, n + 1, n);
      } else {
        assert IsBest(E, ids, start, n + 1, k);
      }
    } else {
      hide Records;
      assert IsBest(E, ids, start, n + 1, n);
    }
  }

  lemma {:induction false} TrialsFrom(E: Oracle, s: string, ids: seq<Id>, start: nat, n: nat, t: Tally)
    requires Tried(E, s, ids, start, n, t)
    ensures var r := Trials(E, s, ids[n..], start, t);
      if r.Some? then Tried(E, s, ids, start, |ids|, r.value)
      else (exists i :: 0 <= i < |ids| && E(Call(ids[i], start, false, true)).None?)
    decreases |ids| - n
  {
    if n < |ids| {
      assert ids[n..][0] == ids[n] && ids[n..][1..] == ids[n + 1..];
      var r := E(Call(ids[n], start, false, true));
      if r.Some? {
        TriedNext(E, s, ids, start, n, t, r.value);
        hide Tried, Tallied;
        TrialsFrom(E, s, ids, start, n + 1, Tallied(s, start, ids[n], r.value, t));
      }
    } else {
      assert ids[n..] == [];
    }
  }

  lemma BestOnce(E: Oracle, ids: seq<Id>, start: nat, n: nat, j: nat, k: nat)
    requires IsBest(E, ids, start, n, j) && IsBest(E, ids, start, n, k)
    ensures j == k
  {
  }

  lemma LongestIs(E: Oracle, s: string, ids: seq<Id>, start: nat, acts: bool, o: Outcome)
    ensures OrRun(E, s, ids, start, acts) == Some(o) <==> IsLongest(E, s, ids, start, acts, o)
  {
    hide Trials, IsBest, Tried, FurthestTrial;
    assert ids[0..] == ids;
    NothingTried(E, s, ids, start);
    TrialsFrom(E, s, ids, start, 0, Untried);
    var r := Trials(E, s, ids, start, Untried);
    if r.Some? { ChosenIs(E, s, ids, start, acts, r.value, o); }
  }

  lemma NothingTried(E: Oracle, s: string, ids: seq<Id>, start: nat)
    ensures Tried(E, s, ids, start, 0, Untried)
  {
  }

  lemma ChosenIs(E: Oracle, s: string, ids: seq<Id>, start: nat, acts: bool, t: Tally, o: Outcome)
    requires Tried(E, s, ids, start, |ids|, t)
    ensures Chosen(E, start, acts, t) == Some(o) <==> IsLongest(E, s, ids, start, acts, o)
  {
    if t.best.Some? {
      var k: nat :| IsBest(E, ids, start, |ids|, k) && BestIs(E, ids, start, k, t.best.value);
      forall j: nat | IsBest(E, ids, start, |ids|, j) ensures j == k { BestOnce(E, ids, start, |ids|, j, k); }
      hide IsBest, FurthestTrial;
    } else {
      assert forall k: nat :: !IsBest(E, ids, start, |ids|, k);
      hide IsBest, NoneEnds;
      forall at ensures FurthestTrial(E, s, ids, start, at) <==> at == if t.furthest.None? then start else t.furthest.value {
        FurthestOnce(i => TrialFails(E, s, ids, start, i), |ids|, start, t.furthest, at);
      }
    }
  }

  /** The longest match among alternatives. */
  lemma OrLaw(g: Table, s: string, c: Call, start: nat, ids: seq<Id>, o: Outcome)
    requires Starts(g, s, c, start) && Bare(Lookup(g, c.id)) && Lookup(g, c.id).kind == Or(ids)
    ensures Meaning(g, s, c) == Some(o) <==>
      exists r :: IsLongest(Meant(g, s), s, ids, start, c.acts, r)
        && o == if r.Matched? then r else Raised(Reported(Lookup(g, c.id), s, c.loc, r.exc))
  {
    var E := Meant(g, s);
    hide Meaning, Starts, IsLongest, OrRun;
    RunMeans(g, s, c, start);
    forall r ensures OrRun(E, s, ids, start, c.acts) == Some(r) <==> IsLongest(E, s, ids, start, c.acts, r) {
      LongestIs(E, s, ids, start, c.acts, r);
    }
  }
}
