/** The symbols of `OneOf` as literal elements in the parsing engine: first match over them gives
    the symbol, the place and the failure that the engine gives. */
module OneOfEngine {
  import opened Results
  import opened Grammar
  import opened Meanings
  import opened Splice
  import opened Leading
  import opened Streamline
  import opened ElementLaws
  import OneOf

  /** What the element made for one symbol does: nothing at all for the empty one, a comparison
      up to case when case does not matter, else a plain literal. */
  function SymbolAt(up: OneOf.CaseMap, caseless: bool, sym: string, s: string, loc: nat): Outcome {
    if sym == "" then Matched(loc, [])
    else if !caseless then LiteralAt(sym, s, loc)
    else if loc + |sym| <= |s| && OneOf.Fold(up, s[loc..loc + |sym|]) == OneOf.Fold(up, sym) then Matched(loc + |sym|, [sym])
    else Raised(ParseError(loc))
  }

  /** The element is the one made for the symbol; it skips the given blanks first. */
  ghost predicate Spells(n: Node, up: OneOf.CaseMap, caseless: bool, sym: string, blanks: string) {
    && n.kind.Leaf? && (forall s, loc :: n.kind.matcher(s, loc) == SymbolAt(up, caseless, sym, s, loc))
    && n.post.None? && n.action.None? && Ignored(n) == [] && Blanks(n) == blanks
  }

  ghost predicate SpellAll(g: Table, ids: seq<Id>, up: OneOf.CaseMap, caseless: bool, symbols: seq<string>, blanks: string) {
    |ids| == |symbols| && forall i :: 0 <= i < |ids| ==> Spells(Lookup(g, ids[i]), up, caseless, symbols[i], blanks)
  }

  function TokensOf(sym: string): Tokens {
    if sym == "" then [] else [sym]
  }

  /** The element matches where the symbol does. */
  lemma SymbolExact(up: OneOf.CaseMap, caseless: bool, sym: string, s: string, loc: nat)
    requires (!caseless ==> up == OneOf.SameCase) && loc <= |s|
    ensures var o := SymbolAt(up, caseless, sym, s, loc);
      if OneOf.MatchesHere(up, sym, s[loc..]) then o == Matched(loc + |sym|, TokensOf(sym))
      else o == Raised(ParseError(loc)) || (o == Raised(IndexFailure) && loc == |s|)
  {
    var rest := s[loc..];
    if sym == "" {
    } else if !caseless {
      LiteralExact(sym, s, loc);
      OneOf.FoldSame(sym);
      OneOf.FoldSame(rest);
    } else if |sym| <= |rest| {
      FoldPrefix(up, rest, |sym|);
      assert rest[..|sym|] == s[loc..loc + |sym|];
      var a, b := OneOf.Fold(up, sym), OneOf.Fold(up, rest);
      assert a <= b <==> a == b[..|sym|];
    }
  }

  lemma FoldPrefix(up: OneOf.CaseMap, t: string, n: nat)
    requires n <= |t|
    ensures OneOf.Fold(up, t[..n]) == OneOf.Fold(up, t)[..n]
  {
  }

  /** What the engine gives for one symbol. */
  lemma SymbolMeans(g: Table, s: string, id: Id, up: OneOf.CaseMap, caseless: bool, sym: string, blanks: string, start: nat, acts: bool)
    requires Spells(Lookup(g, id), up, caseless, sym, blanks) && start <= |s|
    requires !caseless ==> up == OneOf.SameCase
    ensures var (at, r) := (SkipWhite(blanks, s, start), Meaning(g, s, Call(id, start, acts, true)));
      && start <= at <= |s| && r.Some?
      && if OneOf.MatchesHere(up, sym, s[at..]) then r.value == Matched(at + |sym|, TokensOf(sym))
         else r.value.Raised? && FailureAt(s, r.value.exc) == Some(at)
  {
    var n, c := Lookup(g, id), Call(id, start, acts, true);
    var at := SkipWhite(blanks, s, start);
    BlanksEnd(blanks, s, start);
    SymbolExact(up, caseless, sym, s, at);
    var E := Meant(g, s);
    LeadByParts(E, s, n, start);
    LeadValue(g, s, E, c);
    Fixpoint(g, s, c);
    hide Meaning, Begin, Lead, OneOf.MatchesHere, SymbolAt, SkipWhite;
    assert Lead(E, s, n, start) == Some(Matched(at, []));
    var e := Env(id, start, acts);
    assert Impl(g, s, e, at) == Return(Finish(g, s, e, at, SymbolAt(up, caseless, sym, s, at)));
    ValueOfReturn(g, s, E, Finish(g, s, e, at, SymbolAt(up, caseless, sym, s, at)));
  }

  /** The sweep over the elements stops at the first symbol that matches. */
  lemma {:induction false} SweepMeans(g: Table, s: string, ids: seq<Id>, up: OneOf.CaseMap, caseless: bool, symbols: seq<string>,
    blanks: string, start: nat, furthest: Option<nat>, acts: bool)
    requires SpellAll(g, ids, up, caseless, symbols, blanks) && start <= |s| && (!caseless ==> up == OneOf.SameCase)
    requires SkipWhite(blanks, s, start) <= |s| && furthest in {None, Some(SkipWhite(blanks, s, start))}
    ensures var at := SkipWhite(blanks, s, start);
      FirstSweep(Meant(g, s), s, ids, start, furthest, acts) ==
      match OneOf.FirstMatch(up, symbols, s[at..])
      case Some(sym) => Some(Stop(Matched(at + |sym|, TokensOf(sym))))
      case None => Some(Furthest(if ids == [] then furthest else Some(at)))
    decreases |ids|
  {
    if ids != [] {
      var at := SkipWhite(blanks, s, start);
      SymbolMeans(g, s, ids[0], up, caseless, symbols[0], blanks, start, acts);
      hide Spells, Meaning, SkipWhite, OneOf.MatchesHere;
      if !OneOf.MatchesHere(up, symbols[0], s[at..]) {
        SweepMeans(g, s, ids[1..], up, caseless, symbols[1..], blanks, start, Some(at), acts);
      }
    }
  }

  lemma BeginsAtOnce(g: Table, s: string, c: Call)
    requires !(c.pre && Lookup(g, c.id).callPreparse)
    ensures Begin(g, s, c) == Impl(g, s, Env(c.id, c.loc, c.acts), c.loc)
  {
  }

  /** First match over the elements made for the symbols is first match over the symbols: same
      token, same place, and on failure the place after the blanks. */
  lemma EngineIsFirstMatch(g: Table, s: string, c: Call, up: OneOf.CaseMap, caseless: bool, symbols: seq<string>, blanks: string)
    requires var n := Lookup(g, c.id);
      && n.kind.MatchFirst? && n.post.None? && n.action.None? && !(c.pre && n.callPreparse)
      && SpellAll(g, n.kind.exprs, up, caseless, symbols, blanks)
    requires c.loc <= |s| && (!caseless ==> up == OneOf.SameCase)
    ensures var at := SkipWhite(blanks, s, c.loc);
      && at <= |s|
      && Meaning(g, s, c) ==
        match OneOf.FirstMatch(up, symbols, s[at..])
        case Some(sym) => Some(Matched(at + |sym|, TokensOf(sym)))
        case None => Some(Raised(ParseError(if symbols == [] then c.loc else at)))
  {
    hide Meaning, Begin, FirstSweep, Value, Impl, SkipWhite, OneOf.FirstMatch, Spells;
    var n, e, E := Lookup(g, c.id), Env(c.id, c.loc, c.acts), Meant(g, s);
    BlanksEnd(blanks, s, c.loc);
    SweepMeans(g, s, n.kind.exprs, up, caseless, symbols, blanks, c.loc, None, c.acts);
    ListValue(g, s, E, e, c.loc);
    Fixpoint(g, s, c);
    BeginsAtOnce(g, s, c);
  }

  /** So the alternatives that `OneOf.Build` lists match the longest given symbol in the engine. */
  lemma EngineIsLongest(g: Table, s: string, c: Call, up: OneOf.CaseMap, caseless: bool, strs: seq<string>, symbols: seq<string>, blanks: string)
    requires var n := Lookup(g, c.id);
      && n.kind.MatchFirst? && n.post.None? && n.action.None? && !(c.pre && n.callPreparse)
      && SpellAll(g, n.kind.exprs, up, caseless, symbols, blanks)
    requires c.loc <= |s| && (!caseless ==> up == OneOf.SameCase)
    requires OneOf.Unmasked(up, symbols, |symbols|) && OneOf.SameSymbols(up, strs, symbols)
    ensures var at := SkipWhite(blanks, s, c.loc);
      && at <= |s|
      && Meaning(g, s, c).Some?
      && match Meaning(g, s, c).value
         case Raised(_) => OneOf.IsLongestMatch(up, strs, s[at..], None)
         case Matched(loc, tokens) =>
           exists sym :: loc == at + |sym| && tokens == TokensOf(sym) && OneOf.IsLongestMatch(up, strs, s[at..], Some(sym))
  {
    hide Meaning, SkipWhite, SpellAll, OneOf.Unmasked, OneOf.SameSymbols, OneOf.FirstMatch, OneOf.IsLongestMatch;
    EngineIsFirstMatch(g, s, c, up, caseless, symbols, blanks);
    var text := s[SkipWhite(blanks, s, c.loc)..];
    OneOf.FirstIsLongest(up, symbols, text);
    OneOf.LongestMatchSame(up, strs, symbols, text, OneOf.FirstMatch(up, symbols, text));
  }
}
