/** What an element means: the outcome of its parse, or nothing when the parse does not end.
    Meanings are the least solution of the rules of `Grammar` read as equations. */
module Meanings {
  import opened Results
  import opened Grammar

  /** Answers to every request; `None` stands for a parse that does not end. */
  type Oracle = Call -> Option<Outcome>

  // ----- running one element on given answers -----

  function Consult(g: Table, s: string, E: Oracle, st: State, n: nat): Option<Outcome>
    decreases n
  {
    match st
    case Return(o) => Some(o)
    case Ask(c, k) =>
      if n == 0 || E(c).None? then None else Consult(g, s, E, Resume(g, s, k, E(c).value), n - 1)
  }

  lemma {:induction false} ConsultMonotone(g: Table, s: string, E: Oracle, st: State, n: nat, m: nat)
    requires n <= m && Consult(g, s, E, st, n).Some?
    ensures Consult(g, s, E, st, m) == Consult(g, s, E, st, n)
    decreases n
  {
    hide Resume;
    if st.Ask? { ConsultMonotone(g, s, E, Resume(g, s, st.kont, E(st.call).value), n - 1, m - 1); }
  }

  /** What a state comes to on the oracle's answers, if it comes to an end. */
  ghost function Value(g: Table, s: string, E: Oracle, st: State): Option<Outcome> {
    if exists n: nat :: Consult(g, s, E, st, n).Some?
    then var n: nat :| Consult(g, s, E, st, n).Some?; Consult(g, s, E, st, n)
    else None
  }

  lemma ValueIs(g: Table, s: string, E: Oracle, st: State, n: nat)
    requires Consult(g, s, E, st, n).Some?
    ensures Value(g, s, E, st) == Consult(g, s, E, st, n)
  {
    var m: nat :| Consult(g, s, E, st, m).Some? && Value(g, s, E, st) == Consult(g, s, E, st, m);
    if n <= m { ConsultMonotone(g, s, E, st, n, m); } else { ConsultMonotone(g, s, E, st, m, n); }
  }

  lemma ValueOfReturn(g: Table, s: string, E: Oracle, o: Outcome)
    ensures Value(g, s, E, Return(o)) == Some(o)
  {
    ValueIs(g, s, E, Return(o), 0);
  }

  lemma ValueOfAsk(g: Table, s: string, E: Oracle, c: Call, k: Kont)
    ensures Value(g, s, E, Ask(c, k)) == if E(c).None? then None else Value(g, s, E, Resume(g, s, k, E(c).value))
  {
    hide Resume;
    if E(c).Some? {
      var next := Resume(g, s, k, E(c).value);
      assert forall m: nat :: Consult(g, s, E, Ask(c, k), m).Some? ==> m > 0 && Consult(g, s, E, next, m - 1).Some?;
      if n: nat :| Consult(g, s, E, next, n).Some? {
        ValueIs(g, s, E, next, n);
        ValueIs(g, s, E, Ask(c, k), n + 1);
      }
    }
  }

  // ----- meanings -----

  ghost function Meaning(g: Table, s: string, c: Call): Option<Outcome> {
    if exists o :: Yields(g, s, c, o) then var o :| Yields(g, s, c, o); Some(o) else None
  }

  lemma MeaningIs(g: Table, s: string, c: Call, o: Outcome)
    ensures Yields(g, s, c, o) <==> Meaning(g, s, c) == Some(o)
  {
    hide Yields;
    if Yields(g, s, c, o) { YieldsOne(g, s, c, o, Meaning(g, s, c).value); }
  }

  ghost function Meant(g: Table, s: string): Oracle {
    c => Meaning(g, s, c)
  }

  lemma ParsedIsMeant(g: Table, s: string, c: Call, fuel: nat)
    requires Drive(g, s, Begin(g, s, c), fuel).Some?
    ensures Meaning(g, s, c) == Drive(g, s, Begin(g, s, c), fuel)
  {
    hide Begin, Drive;
    assert Parse(g, s, c, fuel) == Drive(g, s, Begin(g, s, c), fuel);
    MeaningIs(g, s, c, Parse(g, s, c, fuel).value);
  }

  lemma {:induction false} DriveConsults(g: Table, s: string, st: State, fuel: nat)
    requires Drive(g, s, st, fuel).Some?
    ensures Consult(g, s, Meant(g, s), st, fuel) == Drive(g, s, st, fuel)
    decreases fuel
  {
    hide Begin, Resume, Meaning;
    if st.Ask? {
      ParsedIsMeant(g, s, st.call, fuel - 1);
      var o := Drive(g, s, Begin(g, s, st.call), fuel - 1).value;
      DriveConsults(g, s, Resume(g, s, st.kont, o), fuel - 1);
    }
  }

  lemma {:induction false} ConsultDrives(g: Table, s: string, st: State, n: nat) returns (fuel: nat)
    requires Consult(g, s, Meant(g, s), st, n).Some?
    ensures Drive(g, s, st, fuel) == Consult(g, s, Meant(g, s), st, n)
    decreases n
  {
    hide Begin, Resume, Meaning, Yields;
    if st.Return? { return 0; }
    var o := Meaning(g, s, st.call).value;
    MeaningIs(g, s, st.call, o);
    var f := Within(g, s, st.call, o);
    var f' := ConsultDrives(g, s, Resume(g, s, st.kont, o), n - 1);
    var m := if f < f' then f' else f;
    DriveMonotone(g, s, Begin(g, s, st.call), f, m);
    DriveMonotone(g, s, Resume(g, s, st.kont, o), f', m);
    return m + 1;
  }

  lemma Within(g: Table, s: string, c: Call, o: Outcome) returns (fuel: nat)
    requires Yields(g, s, c, o)
    ensures Drive(g, s, Begin(g, s, c), fuel) == Some(o)
  {
    hide Begin, Drive;
    fuel :| Parse(g, s, c, fuel) == Some(o);
  }

  /** Meanings satisfy the rules. */
  lemma Fixpoint(g: Table, s: string, c: Call)
    ensures Value(g, s, Meant(g, s), Begin(g, s, c)) == Meaning(g, s, c)
  {
    hide Begin, Drive, Meaning, Consult;
    var st, E := Begin(g, s, c), Meant(g, s);
    if Meaning(g, s, c).Some? {
      MeaningIs(g, s, c, Meaning(g, s, c).value);
      var fuel := Within(g, s, c, Meaning(g, s, c).value);
      DriveConsults(g, s, st, fuel);
      ValueIs(g, s, E, st, fuel);
    } else if n: nat :| Consult(g, s, E, st, n).Some? {
      var fuel := ConsultDrives(g, s, st, n);
      ParsedIsMeant(g, s, c, fuel);
    }
  }

  /** The oracle has every answer the rules give on its own answers. */
  ghost predicate Closed(g: Table, s: string, E: Oracle) {
    forall c :: Value(g, s, E, Begin(g, s, c)).Some? ==> E(c) == Value(g, s, E, Begin(g, s, c))
  }

  lemma {:induction false} DriveUnder(g: Table, s: string, E: Oracle, st: State, fuel: nat)
    requires Closed(g, s, E) && Drive(g, s, st, fuel).Some?
    ensures Consult(g, s, E, st, fuel) == Drive(g, s, st, fuel)
    decreases fuel
  {
    hide Begin, Resume, Value;
    if st.Ask? {
      DriveUnder(g, s, E, Begin(g, s, st.call), fuel - 1);
      var o := Drive(g, s, Begin(g, s, st.call), fuel - 1).value;
      ValueIs(g, s, E, Begin(g, s, st.call), fuel - 1);
      assert E(st.call) == Some(o);
      DriveUnder(g, s, E, Resume(g, s, st.kont, o), fuel - 1);
    }
  }

  /** Meanings are the least solution. */
  lemma Least(g: Table, s: string, E: Oracle, c: Call)
    requires Closed(g, s, E) && Meaning(g, s, c).Some?
    ensures E(c) == Meaning(g, s, c)
  {
    hide Begin, Drive, Meaning, Value;
    MeaningIs(g, s, c, Meaning(g, s, c).value);
    var fuel := Within(g, s, c, Meaning(g, s, c).value);
    DriveUnder(g, s, E, Begin(g, s, c), fuel);
    ValueIs(g, s, E, Begin(g, s, c), fuel);
  }
}
