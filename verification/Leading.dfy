/** What skipping leading material comes to, told apart from the element it is done for. */
module Leading {
  import opened Results
  import opened Grammar
  import opened Meanings
  import opened Splice
  import opened Mirrors

  // ----- ignorable elements -----

  /** The rounds over the ignorable elements, at most `n` requests of them. */
  function SkipSteps(E: Oracle, ids: seq<Id>, i: nat, found: bool, loc: nat, n: nat): Option<Outcome>
    requires ids != []
    decreases n
  {
    if i >= |ids| && !found then Some(Matched(loc, []))
    else if n == 0 then None
    else
      var (j, again) := if i < |ids| then (i, found) else (0, false);
      match E(Call(ids[j], loc, true, true))
      case None => None
      case Some(Matched(l, _)) => SkipSteps(E, ids, j, true, l, n - 1)
      case Some(Raised(x)) =>
        if x.ParseError? then SkipSteps(E, ids, j + 1, again, loc, n - 1) else Some(Raised(x))
  }

  ghost function SkipOutcome(E: Oracle, ids: seq<Id>, loc: nat): Option<Outcome>
    requires ids != []
  {
    if exists n: nat :: SkipSteps(E, ids, 0, false, loc, n).Some?
    then var n: nat :| SkipSteps(E, ids, 0, false, loc, n).Some?; SkipSteps(E, ids, 0, false, loc, n)
    else None
  }

  ghost function SkipAll(E: Oracle, ids: seq<Id>, loc: nat): Option<Outcome> {
    if ids == [] then Some(Matched(loc, [])) else SkipOutcome(E, ids, loc)
  }

  /** The same, moved on past blanks. */
  function PastBlanks(chars: string, s: string, r: Option<Outcome>): Option<Outcome> {
    if r.Some? && r.value.Matched? then Some(Matched(SkipWhite(chars, s, r.value.loc), [])) else r
  }

  /** Where the element's own rule starts, or the failure that keeps it from starting. */
  ghost function Lead(E: Oracle, s: string, n: Node, loc: nat): Option<Outcome> {
    if !n.callPreparse then Some(Matched(loc, []))
    else PastBlanks(if n.skipWhitespace then n.whiteChars else "", s, SkipAll(E, n.ignoreExprs, loc))
  }

  /** The state after the ignorable elements. */
  function AfterSkip(g: Table, s: string, e: Env, after: After, o: Outcome): State {
    if o.Matched? then Skipped(g, s, e, o.loc, after) else SkipRaised(g, s, e, after, o)
  }

  lemma {:induction false} SkipRuns(g: Table, s: string, E: Oracle, e: Env, i: nat, found: bool, loc: nat, after: After, n: nat)
    requires Lookup(g, e.id).ignoreExprs != []
    requires SkipSteps(E, Lookup(g, e.id).ignoreExprs, i, found, loc, n).Some?
    ensures Value(g, s, E, Skip(g, s, e, i, found, loc, after)) ==
            Value(g, s, E, AfterSkip(g, s, e, after, SkipSteps(E, Lookup(g, e.id).ignoreExprs, i, found, loc, n).value))
    decreases n
  {
    var ids := Lookup(g, e.id).ignoreExprs;
    hide Value, Skipped, SkipRaised;
    if i < |ids| || found {
      var (j, again) := if i < |ids| then (i, found) else (0, false);
      var c, k := Call(ids[j], loc, true, true), Skipping(e, j, again, loc, after);
      assert Skip(g, s, e, i, found, loc, after) == Ask(c, k);
      var o := E(c).value;
      ValueOfAsk(g, s, E, c, k);
      if o.Matched? {
        SkipRuns(g, s, E, e, j, true, o.loc, after, n - 1);
      } else if o.exc.ParseError? {
        SkipRuns(g, s, E, e, j + 1, again, loc, after, n - 1);
      }
    }
  }

  /** A run that ends gets past the ignorable elements with no more requests than it has left. */
  lemma {:induction false} SkipEnds(g: Table, s: string, E: Oracle, e: Env, i: nat, found: bool, loc: nat, after: After, n: nat)
    returns (m: nat)
    requires Lookup(g, e.id).ignoreExprs != []
    requires Consult(g, s, E, Skip(g, s, e, i, found, loc, after), n).Some?
    ensures m <= n && SkipSteps(E, Lookup(g, e.id).ignoreExprs, i, found, loc, n).Some?
    ensures Consult(g, s, E, AfterSkip(g, s, e, after, SkipSteps(E, Lookup(g, e.id).ignoreExprs, i, found, loc, n).value), m).Some?
    decreases n
  {
    var ids := Lookup(g, e.id).ignoreExprs;
    hide Skipped, SkipRaised;
    m := n;
    if i < |ids| || found {
      var (j, again) := if i < |ids| then (i, found) else (0, false);
      var c, k := Call(ids[j], loc, true, true), Skipping(e, j, again, loc, after);
      assert Skip(g, s, e, i, found, loc, after) == Ask(c, k);
      var o := E(c).value;
      if o.Matched? {
        m := SkipEnds(g, s, E, e, j, true, o.loc, after, n - 1);
      } else if o.exc.ParseError? {
        m := SkipEnds(g, s, E, e, j + 1, again, loc, after, n - 1);
      } else {
        m := n - 1;
      }
    }
  }

  lemma SkipValue(g: Table, s: string, E: Oracle, e: Env, loc: nat, after: After)
    requires Lookup(g, e.id).ignoreExprs != []
    ensures var r := SkipOutcome(E, Lookup(g, e.id).ignoreExprs, loc);
            Value(g, s, E, Skip(g, s, e, 0, false, loc, after)) ==
            if r.None? then None else Value(g, s, E, AfterSkip(g, s, e, after, r.value))
  {
    var ids, st := Lookup(g, e.id).ignoreExprs, Skip(g, s, e, 0, false, loc, after);
    hide Skip, SkipSteps, Consult, AfterSkip;
    if n: nat :| SkipSteps(E, ids, 0, false, loc, n).Some? && SkipOutcome(E, ids, loc) == SkipSteps(E, ids, 0, false, loc, n) {
      SkipRuns(g, s, E, e, 0, false, loc, after, n);
    } else if n: nat :| Consult(g, s, E, st, n).Some? {
      var m := SkipEnds(g, s, E, e, 0, false, loc, after, n);
    }
  }

  lemma NoWhite(n: Node, s: string, loc: nat)
    ensures White(n, s, loc) == SkipWhite(if n.skipWhitespace then n.whiteChars else "", s, loc)
  {
    NoBlanks(s, loc);
  }

  lemma {:induction false} NoBlanks(s: string, loc: nat)
    ensures SkipWhite("", s, loc) == loc
  {
  }

  /** An element asked with leave to skip starts where its leading material ends. */
  lemma LeadValue(g: Table, s: string, E: Oracle, c: Call)
    requires c.pre
    ensures var r := Lead(E, s, Lookup(g, c.id), c.loc);
            Value(g, s, E, Begin(g, s, c)) ==
            if r.None? || r.value.Raised? then r
            else Value(g, s, E, Impl(g, s, Env(c.id, c.loc, c.acts), r.value.loc))
  {
    var n, e := Lookup(g, c.id), Env(c.id, c.loc, c.acts);
    NoWhite(n, s, c.loc);
    hide Value, Impl, SkipOutcome, SkipWhite;
    if n.callPreparse && n.ignoreExprs != [] {
      SkipValue(g, s, E, e, c.loc, ToImpl);
      var r := SkipOutcome(E, n.ignoreExprs, c.loc);
      if r.Some? {
        if r.value.Raised? { ValueOfReturn(g, s, E, r.value); } else { NoWhite(n, s, r.value.loc); }
      }
    }
  }

  // ----- elements that skip the same -----

  function Ignored(n: Node): seq<Id> {
    if n.callPreparse then n.ignoreExprs else []
  }

  function Blanks(n: Node): string {
    if n.callPreparse && n.skipWhitespace then n.whiteChars else ""
  }

  /** The element has no leading material to skip. */
  predicate Idle(n: Node) {
    Ignored(n) == [] && Blanks(n) == ""
  }

  predicate Composite(k: Kind) {
    k.And? || k.Or? || k.MatchFirst?
  }

  /** The same element, or two copies of one that is not a list. */
  ghost predicate Copies(g: Table, a: Id, b: Id) {
    a == b || (!Composite(Lookup(g, a).kind) && SameRule(Lookup(g, a), Lookup(g, b)))
  }

  /** The two elements skip the same blanks and copies of the same ignorable elements. */
  ghost predicate SameLead(g: Table, n: Node, m: Node) {
    && (forall c :: c in Blanks(n) <==> c in Blanks(m))
    && |Ignored(n)| == |Ignored(m)|
    && forall i :: 0 <= i < |Ignored(n)| ==> Copies(g, Ignored(n)[i], Ignored(m)[i])
  }

  lemma SameLeadTransitive(g: Table, a: Node, b: Node, c: Node)
    requires SameLead(g, a, b) && SameLead(g, b, c)
    ensures SameLead(g, a, c)
  {
    hide SameRule;
    forall i | 0 <= i < |Ignored(a)| ensures Copies(g, Ignored(a)[i], Ignored(c)[i]) {
      CopiesTransitive(g, Ignored(a)[i], Ignored(b)[i], Ignored(c)[i]);
    }
  }

  lemma CopiesTransitive(g: Table, a: Id, b: Id, c: Id)
    requires Copies(g, a, b) && Copies(g, b, c)
    ensures Copies(g, a, c)
  {
  }

  lemma {:induction false} SameBlanks(a: string, b: string, s: string, loc: nat)
    requires forall c :: c in a <==> c in b
    ensures SkipWhite(a, s, loc) == SkipWhite(b, s, loc)
    decreases |s| - loc
  {
    if loc < |s| && s[loc] in a { SameBlanks(a, b, s, loc + 1); }
  }

  /** The answers for the two lists of elements are the same. */
  ghost predicate SameAnswers(E: Oracle, ids: seq<Id>, ids': seq<Id>) {
    |ids| == |ids'| &&
    forall i, l: nat :: 0 <= i < |ids| ==> E(Call(ids[i], l, true, true)) == E(Call(ids'[i], l, true, true))
  }

  lemma {:induction false} SameSteps(E: Oracle, ids: seq<Id>, ids': seq<Id>, i: nat, found: bool, loc: nat, n: nat)
    requires ids != [] && ids' != [] && SameAnswers(E, ids, ids')
    ensures SkipSteps(E, ids, i, found, loc, n) == SkipSteps(E, ids', i, found, loc, n)
    decreases n
  {
    if (i < |ids| || found) && n > 0 {
      var (j, again) := if i < |ids| then (i, found) else (0, false);
      var r := E(Call(ids[j], loc, true, true));
      assert r == E(Call(ids'[j], loc, true, true));
      if r.Some? && r.value.Matched? {
        SameSteps(E, ids, ids', j, true, r.value.loc, n - 1);
      } else if r.Some? && r.value.exc.ParseError? {
        SameSteps(E, ids, ids', j + 1, again, loc, n - 1);
      }
    }
  }

  lemma SkipStepsOnce(E: Oracle, ids: seq<Id>, i: nat, found: bool, loc: nat, n: nat, m: nat)
    requires ids != [] && n <= m && SkipSteps(E, ids, i, found, loc, n).Some?
    ensures SkipSteps(E, ids, i, found, loc, m) == SkipSteps(E, ids, i, found, loc, n)
    decreases n
  {
  }

  lemma SkipOutcomeIs(E: Oracle, ids: seq<Id>, loc: nat, n: nat)
    requires ids != [] && SkipSteps(E, ids, 0, false, loc, n).Some?
    ensures SkipOutcome(E, ids, loc) == SkipSteps(E, ids, 0, false, loc, n)
  {
    hide SkipSteps;
    var m: nat :| SkipSteps(E, ids, 0, false, loc, m).Some? && SkipOutcome(E, ids, loc) == SkipSteps(E, ids, 0, false, loc, m);
    if n <= m { SkipStepsOnce(E, ids, 0, false, loc, n, m); } else { SkipStepsOnce(E, ids, 0, false, loc, m, n); }
  }

  lemma SameOutcome(E: Oracle, ids: seq<Id>, ids': seq<Id>, loc: nat)
    requires ids != [] && ids' != [] && SameAnswers(E, ids, ids')
    ensures SkipOutcome(E, ids, loc) == SkipOutcome(E, ids', loc)
  {
    hide SkipSteps, SameAnswers;
    forall n: nat ensures SkipSteps(E, ids, 0, false, loc, n) == SkipSteps(E, ids', 0, false, loc, n) {
      SameSteps(E, ids, ids', 0, false, loc, n);
    }
    if n: nat :| SkipSteps(E, ids, 0, false, loc, n).Some? {
      SkipOutcomeIs(E, ids, loc, n);
      SkipOutcomeIs(E, ids', loc, n);
    }
  }

  lemma LeadSame(E: Oracle, s: string, n: Node, m: Node, loc: nat)
    requires (forall c :: c in Blanks(n) <==> c in Blanks(m)) && SameAnswers(E, Ignored(n), Ignored(m))
    ensures Lead(E, s, n, loc) == Lead(E, s, m, loc)
  {
    LeadByParts(E, s, n, loc);
    LeadByParts(E, s, m, loc);
    hide SkipOutcome, Lead, SkipWhite;
    if Ignored(n) != [] { SameOutcome(E, Ignored(n), Ignored(m), loc); }
    var r := SkipAll(E, Ignored(n), loc);
    if r.Some? && r.value.Matched? { SameBlanks(Blanks(n), Blanks(m), s, r.value.loc); }
  }

  lemma LeadByParts(E: Oracle, s: string, n: Node, loc: nat)
    ensures Lead(E, s, n, loc) ==
            PastBlanks(Blanks(n), s, SkipAll(E, Ignored(n), loc))
  {
    NoBlanks(s, loc);
    hide SkipOutcome;
  }

  lemma IdleLead(E: Oracle, s: string, n: Node, loc: nat)
    requires Idle(n)
    ensures Lead(E, s, n, loc) == Some(Matched(loc, []))
  {
    LeadByParts(E, s, n, loc);
    NoBlanks(s, loc);
    hide Lead;
  }

  /** Copies of an element mean the same. */
  lemma CopiesMean(g: Table, s: string, a: Id, b: Id, loc: nat)
    requires Copies(g, a, b)
    ensures Meaning(g, s, Call(a, loc, true, true)) == Meaning(g, s, Call(b, loc, true, true))
  {
    if a != b {
      var c, d := Call(a, loc, true, true), Call(b, loc, true, true);
      SameValue(g, g, s, Meant(g, s), c, d);
      hide Meaning, Value, Begin;
      Fixpoint(g, s, c);
      Fixpoint(g, s, d);
    }
  }

  /** Elements that skip the same start at the same places. */
  lemma SameLeadMeans(g: Table, s: string, n: Node, m: Node, loc: nat)
    requires SameLead(g, n, m)
    ensures Lead(Meant(g, s), s, n, loc) == Lead(Meant(g, s), s, m, loc)
  {
    hide Meaning, Copies, Lead;
    var E := Meant(g, s);
    forall i, l: nat | 0 <= i < |Ignored(n)|
      ensures E(Call(Ignored(n)[i], l, true, true)) == E(Call(Ignored(m)[i], l, true, true))
    {
      CopiesMean(g, s, Ignored(n)[i], Ignored(m)[i], l);
    }
    LeadSame(E, s, n, m, loc);
  }
}
