/** Backtracking parser elements and what parsing with them means. A parse is a machine that
    asks for the outcome of other parses; every combinator says what it asks next and what
    it makes of the answer. */
module Grammar {
  import opened Results

  /** Parser elements are known by number; a table gives their definitions. */
  type Id = nat

  type Tokens = seq<string>

  /** Exceptions: an ordinary failure, a fatal one, a syntax error behind an error stop, and the
      host's index error. All but the last carry a location. */
  datatype Exc = ParseError(loc: nat) | FatalError(loc: nat) | SyntaxFailure(loc: nat) | IndexFailure

  datatype Outcome = Matched(loc: nat, tokens: Tokens) | Raised(exc: Exc)

  datatype ActionResult = Keep | NewTokens(tokens: Tokens) | Throw(exc: Exc)

  datatype Kind =
    | Leaf(matcher: (string, nat) -> Outcome)
    | ErrorStop
    | And(exprs: seq<Id>)
    | Or(exprs: seq<Id>)
    | MatchFirst(exprs: seq<Id>)
    | ZeroOrMore(expr: Id)
    | OneOrMore(expr: Id)
    | Optional(expr: Id, default: Option<string>)
    | FollowedBy(expr: Id)
    | NotAny(expr: Id)
    | Wrapper(inner: Option<Id>)
    | Forward(inner: Option<Id>, streamlined: bool)

  datatype Node = Node(
    kind: Kind,
    skipWhitespace: bool,
    whiteChars: string,
    ignoreExprs: seq<Id>,
    callPreparse: bool,
    mayIndexError: bool,
    post: Option<(nat, Tokens) -> Tokens>,
    action: Option<(string, nat, Tokens) -> ActionResult>,
    callDuringTry: bool,
    named: bool,
    debug: bool)

  type Table = map<Id, Node>

  /** An element that never matches stands for a missing definition. */
  const NoMatch := Node(Wrapper(None), false, "", [], true, true, None, None, false, false, false)

  function Lookup(g: Table, id: Id): Node {
    if id in g then g[id] else NoMatch
  }

  /** Matching a fixed non-empty text. Reading past the end is an index error. */
  function LiteralAt(sym: string, s: string, loc: nat): Outcome
    requires sym != ""
  {
    if loc >= |s| then Raised(IndexFailure)
    else if s[loc] == sym[0] && (|sym| == 1 || sym <= s[loc..]) then Matched(loc + |sym|, [sym])
    else Raised(ParseError(loc))
  }

  /** The literal matcher is a prefix test that tells the end of the text from a mismatch. */
  lemma LiteralExact(sym: string, s: string, loc: nat)
    requires sym != ""
    ensures LiteralAt(sym, s, loc).Matched? <==> loc <= |s| && sym <= s[loc..]
    ensures LiteralAt(sym, s, loc) == Raised(IndexFailure) <==> loc >= |s|
    ensures LiteralAt(sym, s, loc).Matched? ==> LiteralAt(sym, s, loc).loc <= |s|
  {
    if loc < |s| && s[loc] == sym[0] && |sym| == 1 { assert sym == [s[loc]] <= s[loc..]; }
    if loc < |s| && sym <= s[loc..] { assert s[loc] == s[loc..][0] == sym[0]; }
  }

  /** One request: which element, where, whether actions run, whether to skip leading material. */
  datatype Call = Call(id: Id, loc: nat, acts: bool, pre: bool)

  /** The element being parsed, the location it was called at, and whether actions run. */
  datatype Env = Env(id: Id, loc0: nat, acts: bool)

  /** What to do when nothing more can be ignored. */
  datatype After = ToImpl | ToRepeat(start: nat, tokens: Tokens, at: nat)

  /** What a suspended element is waiting for. `start` is where its own match began. */
  datatype Kont =
    | Skipping(env: Env, i: nat, found: bool, loc: nat, after: After)
    | InAnd(env: Env, start: nat, i: nat, tokens: Tokens, stop: bool)
    | InOr(env: Env, start: nat, i: nat, furthest: Option<nat>, best: Option<(nat, Id)>)
    | InFirst(env: Env, start: nat, i: nat, furthest: Option<nat>)
    | InRepeat(env: Env, start: nat, at: nat, tokens: Tokens, first: bool)
    | InOptional(env: Env, start: nat)
    | InAhead(env: Env, start: nat)
    | InNot(env: Env, start: nat)
    | InTail(env: Env, start: nat)

  datatype State = Return(outcome: Outcome) | Ask(call: Call, kont: Kont)

  // ----- before and after the element's own rule -----

  function SkipWhite(chars: string, s: string, loc: nat): nat
    decreases |s| - loc
  {
    if loc < |s| && s[loc] in chars then SkipWhite(chars, s, loc + 1) else loc
  }

  function White(n: Node, s: string, loc: nat): nat {
    if n.skipWhitespace then SkipWhite(n.whiteChars, s, loc) else loc
  }

  /** A new activation of an element. */
  function Begin(g: Table, s: string, c: Call): State {
    var e, n := Env(c.id, c.loc, c.acts), Lookup(g, c.id);
    if c.pre && n.callPreparse then
      if n.ignoreExprs != [] then Skip(g, s, e, 0, false, c.loc, ToImpl) else Impl(g, s, e, White(n, s, c.loc))
    else Impl(g, s, e, c.loc)
  }

  /** Try the ignorable elements from the i-th on; start over as long as a round found one. */
  function Skip(g: Table, s: string, e: Env, i: nat, found: bool, loc: nat, after: After): State {
    var ids := Lookup(g, e.id).ignoreExprs;
    if i < |ids| then Ask(Call(ids[i], loc, true, true), Skipping(e, i, found, loc, after))
    else if found && ids != [] then Ask(Call(ids[0], loc, true, true), Skipping(e, 0, false, loc, after))
    else Skipped(g, s, e, loc, after)
  }

  function Skipped(g: Table, s: string, e: Env, loc: nat, after: After): State {
    match after
    case ToImpl => Impl(g, s, e, White(Lookup(g, e.id), s, loc))
    case ToRepeat(start, tokens, at) => AskAgain(g, e, start, at, tokens, loc)
  }

  /** Index errors become failures at the end of the text where the element allows for them;
      tokens are post-processed, then the parse action runs unless this is only a trial. */
  function Finish(g: Table, s: string, e: Env, start: nat, o: Outcome): Outcome {
    var n := Lookup(g, e.id);
    match o
    case Raised(x) =>
      if x.IndexFailure? && (n.mayIndexError || n.debug || e.loc0 >= |s|) then Raised(ParseError(|s|)) else o
    case Matched(loc, raw) =>
      var tokens := if n.post.Some? then n.post.value(loc, raw) else raw;
      if n.action.Some? && (e.acts || n.callDuringTry) then
        match n.action.value(s, start, tokens)
        case Keep => Matched(loc, tokens)
        case NewTokens(t) => Matched(loc, t)
        case Throw(x) => Raised(x)
      else Matched(loc, tokens)
  }

  function Done(g: Table, s: string, e: Env, start: nat, o: Outcome): State {
    Return(Finish(g, s, e, start, o))
  }

  // ----- the rules -----

  function Impl(g: Table, s: string, e: Env, start: nat): State {
    match Lookup(g, e.id).kind
    case Leaf(matcher) => Done(g, s, e, start, matcher(s, start))
    case ErrorStop => Done(g, s, e, start, Matched(start, []))
    case And(exprs) =>
      if exprs == [] then Done(g, s, e, start, Raised(IndexFailure))
      else Ask(Call(exprs[0], start, e.acts, false), InAnd(e, start, 0, [], false))
    case Or(exprs) => OrNext(g, s, e, start, 0, None, None)
    case MatchFirst(exprs) => FirstNext(g, s, e, start, 0, None)
    case ZeroOrMore(x) => Ask(Call(x, start, e.acts, false), InRepeat(e, start, start, [], true))
    case OneOrMore(x) => Ask(Call(x, start, e.acts, false), InRepeat(e, start, start, [], true))
    case Optional(x, _) => Ask(Call(x, start, e.acts, false), InOptional(e, start))
    case FollowedBy(x) => Ask(Call(x, start, false, true), InAhead(e, start))
    case NotAny(x) => Ask(Call(x, start, false, true), InNot(e, start))
    case Wrapper(inner) => Tail(g, s, e, start, inner)
    case Forward(inner, _) => Tail(g, s, e, start, inner)
  }

  function Tail(g: Table, s: string, e: Env, start: nat, inner: Option<Id>): State {
    if inner.None? then Done(g, s, e, start, Raised(ParseError(start)))
    else Ask(Call(inner.value, start, e.acts, false), InTail(e, start))
  }

  function Exprs(g: Table, id: Id): seq<Id> {
    var k := Lookup(g, id).kind;
    if k.And? || k.Or? || k.MatchFirst? then k.exprs else []
  }

  function Alternative(g: Table, id: Id, i: nat): Id {
    if i < |Exprs(g, id)| then Exprs(g, id)[i] else 0
  }

  /** The next element of a sequence; error stops are only remembered. */
  function AndNext(g: Table, s: string, e: Env, start: nat, i: nat, loc: nat, tokens: Tokens, stop: bool): State
    decreases |Exprs(g, e.id)| - i
  {
    var exprs := Exprs(g, e.id);
    if i >= |exprs| then Done(g, s, e, start, Matched(loc, tokens))
    else if Lookup(g, exprs[i]).kind.ErrorStop? then AndNext(g, s, e, start, i + 1, loc, tokens, true)
    else Ask(Call(exprs[i], loc, e.acts, true), InAnd(e, start, i, tokens, stop))
  }

  /** The later of two failure locations; the first one wins a tie. */
  function Further(furthest: Option<nat>, loc: nat): Option<nat> {
    if furthest.None? || loc > furthest.value then Some(loc) else furthest
  }

  function NoneMatched(start: nat, furthest: Option<nat>): Outcome {
    Raised(ParseError(if furthest.Some? then furthest.value else start))
  }

  /** Trials of the alternatives in turn, then the longest one for real. */
  function OrNext(g: Table, s: string, e: Env, start: nat, i: nat, furthest: Option<nat>, best: Option<(nat, Id)>): State {
    var exprs := Exprs(g, e.id);
    if i < |exprs| then Ask(Call(exprs[i], start, false, true), InOr(e, start, i, furthest, best))
    else if best.None? then Done(g, s, e, start, NoneMatched(start, furthest))
    else Ask(Call(best.value.1, start, e.acts, true), InTail(e, start))
  }

  function FirstNext(g: Table, s: string, e: Env, start: nat, i: nat, furthest: Option<nat>): State {
    var exprs := Exprs(g, e.id);
    if i < |exprs| then Ask(Call(exprs[i], start, e.acts, true), InFirst(e, start, i, furthest))
    else Done(g, s, e, start, NoneMatched(start, furthest))
  }

  function Repeated(g: Table, id: Id): Id {
    var k := Lookup(g, id).kind;
    if k.ZeroOrMore? || k.OneOrMore? then k.expr else 0
  }

  function RepeatNext(g: Table, s: string, e: Env, start: nat, at: nat, tokens: Tokens): State {
    if Lookup(g, e.id).ignoreExprs != [] then Skip(g, s, e, 0, false, at, ToRepeat(start, tokens, at))
    else AskAgain(g, e, start, at, tokens, at)
  }

  function AskAgain(g: Table, e: Env, start: nat, at: nat, tokens: Tokens, loc: nat): State {
    Ask(Call(Repeated(g, e.id), loc, e.acts, true), InRepeat(e, start, at, tokens, false))
  }

  /** A fatal failure during a trial counts as an ordinary one at the place of the trial. */
  function Trial(start: nat, o: Outcome): Outcome {
    if o.Raised? && (o.exc.FatalError? || o.exc.SyntaxFailure?) then Raised(ParseError(start)) else o
  }

  /** Behind an error stop every failure is a syntax error. */
  function Stopped(s: string, x: Exc): Exc {
    match x
    case SyntaxFailure(_) => x
    case IndexFailure => SyntaxFailure(|s|)
    case ParseError(loc) => SyntaxFailure(loc)
    case FatalError(loc) => SyntaxFailure(loc)
  }

  /** Where an alternative's failure counts, if it is one that lets the next be tried. */
  function FailureAt(s: string, x: Exc): Option<nat> {
    match x
    case ParseError(loc) => Some(loc)
    case IndexFailure => Some(|s|)
    case _ => None
  }

  /** An ignorable element raised something other than an ordinary failure: from leading
      material it escapes as it is, inside a repetition an index error ends the repetition. */
  function SkipRaised(g: Table, s: string, e: Env, after: After, o: Outcome): State {
    match after
    case ToImpl => Return(o)
    case ToRepeat(start, tokens, at) =>
      Done(g, s, e, start, if o == Raised(IndexFailure) then Matched(at, tokens) else o)
  }

  /** What a suspended element does with an answer. */
  function Resume(g: Table, s: string, k: Kont, o: Outcome): State {
    match k
    case Skipping(e, i, found, loc, after) =>
      if o.Matched? then Skip(g, s, e, i, true, o.loc, after)
      else if o.exc.ParseError? then Skip(g, s, e, i + 1, found, loc, after)
      else SkipRaised(g, s, e, after, o)
    case InAnd(e, start, i, tokens, stop) =>
      if o.Matched? then AndNext(g, s, e, start, i + 1, o.loc, tokens + o.tokens, stop)
      else Done(g, s, e, start, if stop then Raised(Stopped(s, o.exc)) else o)
    case InOr(e, start, i, furthest, best) =>
      var t := Trial(start, o);
      if t.Matched? then
        OrNext(g, s, e, start, i + 1, furthest,
          if best.None? || t.loc > best.value.0 then Some((t.loc, Alternative(g, e.id, i))) else best)
      else OrNext(g, s, e, start, i + 1, Further(furthest, if t.exc.ParseError? then t.exc.loc else |s|), best)
    case InFirst(e, start, i, furthest) =>
      if o.Matched? || FailureAt(s, o.exc).None? then Done(g, s, e, start, o)
      else FirstNext(g, s, e, start, i + 1, Further(furthest, FailureAt(s, o.exc).value))
    case InRepeat(e, start, at, tokens, first) =>
      if o.Matched? then RepeatNext(g, s, e, start, o.loc, tokens + o.tokens)
      else if FailureAt(s, o.exc).Some? && !(first && Lookup(g, e.id).kind.OneOrMore?) then
        Done(g, s, e, start, Matched(at, tokens))
      else Done(g, s, e, start, o)
    case InOptional(e, start) =>
      if o.Matched? || FailureAt(s, o.exc).None? then Done(g, s, e, start, o)
      else Done(g, s, e, start, Matched(start, DefaultTokens(g, e.id)))
    case InAhead(e, start) =>
      var t := Trial(start, o);
      Done(g, s, e, start, if t.Matched? then Matched(start, []) else t)
    case InNot(e, start) =>
      Done(g, s, e, start, if o.Matched? then Raised(ParseError(start)) else Matched(start, []))
    case InTail(e, start) => Done(g, s, e, start, o)
  }

  function DefaultTokens(g: Table, id: Id): Tokens {
    var k := Lookup(g, id).kind;
    if k.Optional? && k.default.Some? then [k.default.value] else []
  }

  // ----- running the machine -----

  /** Run a state, every answer computed afresh; `None` when the bound is too small. */
  function Drive(g: Table, s: string, st: State, fuel: nat): Option<Outcome>
    decreases fuel
  {
    match st
    case Return(o) => Some(o)
    case Ask(c, k) =>
      if fuel == 0 then None
      else
        match Drive(g, s, Begin(g, s, c), fuel - 1)
        case None => None
        case Some(o) => Drive(g, s, Resume(g, s, k, o), fuel - 1)
  }

  function Parse(g: Table, s: string, c: Call, fuel: nat): Option<Outcome> {
    Drive(g, s, Begin(g, s, c), fuel)
  }

  /** An outcome, once reached, does not depend on the bound. */
  lemma {:induction false} DriveMonotone(g: Table, s: string, st: State, f: nat, f': nat)
    requires f <= f' && Drive(g, s, st, f).Some?
    ensures Drive(g, s, st, f') == Drive(g, s, st, f)
    decreases f
  {
    hide Begin, Resume;
    if st.Ask? {
      DriveMonotone(g, s, Begin(g, s, st.call), f - 1, f' - 1);
      var o := Drive(g, s, Begin(g, s, st.call), f - 1).value;
      DriveMonotone(g, s, Resume(g, s, st.kont, o), f - 1, f' - 1);
    }
  }

  /** The parse comes to an end with this outcome. */
  ghost predicate Yields(g: Table, s: string, c: Call, o: Outcome) {
    exists fuel: nat :: Parse(g, s, c, fuel) == Some(o)
  }

  lemma YieldsOne(g: Table, s: string, c: Call, o: Outcome, p: Outcome)
    requires Yields(g, s, c, o) && Yields(g, s, c, p)
    ensures o == p
  {
    hide Begin;
    var f: nat :| Parse(g, s, c, f) == Some(o);
    var f': nat :| Parse(g, s, c, f') == Some(p);
    if f <= f' { DriveMonotone(g, s, Begin(g, s, c), f, f'); } else { DriveMonotone(g, s, Begin(g, s, c), f', f); }
  }
}
