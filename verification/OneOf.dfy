/** Building one parser for many literal alternatives: the in-place reordering that makes
    first match mean longest match, and the choice of the parser that is returned. */
module OneOf {
  import opened Results

  /** Case folding, one character at a time; the identity when case matters. */
  type CaseMap = char -> char

  function Fold(up: CaseMap, s: string): (r: string)
    ensures |r| == |s|
  {
    seq(|s|, i requires 0 <= i < |s| => up(s[i]))
  }

  /** `isequal(a, b)` */
  predicate IsEqual(up: CaseMap, a: string, b: string) {
    Fold(up, a) == Fold(up, b)
  }

  /** `masks(a, b)`: `b` starts with `a`, so an earlier `a` hides `b`. */
  predicate Masks(up: CaseMap, a: string, b: string) {
    Fold(up, a) <= Fold(up, b)
  }

  lemma MasksLonger(up: CaseMap, a: string, b: string)
    requires Masks(up, a, b) && !IsEqual(up, a, b)
    ensures |a| < |b|
  {
    assert Fold(up, b)[..|Fold(up, b)|] == Fold(up, b);
  }

  /** No symbol hides a later one. */
  ghost predicate Unmasked(up: CaseMap, s: seq<string>, upTo: int) {
    forall a, b :: 0 <= a < upTo && a < b < |s| ==> !Masks(up, s[a], s[b])
  }

  /** Same symbols, up to case and repetition. */
  ghost predicate SameSymbols(up: CaseMap, s: seq<string>, t: seq<string>) {
    && (forall x :: x in t ==> x in s)
    && forall x :: x in s ==> Present(up, x, t)
  }

  ghost predicate Present(up: CaseMap, x: string, t: seq<string>) {
    exists y :: y in t && IsEqual(up, x, y)
  }

  function MaxLength(s: seq<string>): nat {
    if s == [] then 0 else if |s[0]| > MaxLength(s[1..]) then |s[0]| else MaxLength(s[1..])
  }

  lemma {:induction false} MaxLengthBound(s: seq<string>, x: string)
    requires x in s
    ensures |x| <= MaxLength(s)
  {
    if x != s[0] { MaxLengthBound(s[1..], x); }
  }

  /** Remove position d. */
  function CutOut(s: seq<string>, d: nat): seq<string>
    requires d < |s|
  {
    s[..d] + s[d + 1..]
  }

  /** Move position d in front of position i. */
  function MoveTo(s: seq<string>, d: nat, i: nat): seq<string>
    requires i < d < |s|
  {
    s[..i] + [s[d]] + s[i..d] + s[d + 1..]
  }

  lemma CutOutFacts(up: CaseMap, s: seq<string>, d: nat, i: nat)
    requires i < d < |s| && IsEqual(up, s[d], s[i]) && Unmasked(up, s, i)
    ensures Unmasked(up, CutOut(s, d), i)
    ensures SameSymbols(up, s, CutOut(s, d))
  {
    var t := CutOut(s, d);
    forall a, b | 0 <= a < i && a < b < |t| ensures !Masks(up, t[a], t[b]) {
      assert t[a] == s[a] && t[b] == s[if b < d then b else b + 1];
    }
    forall x | x in s ensures Present(up, x, t) {
      var k :| 0 <= k < |s| && s[k] == x;
      if k == d {
        assert t[i] == s[i] && t[i] in t;
      } else {
        assert t[if k < d then k else k - 1] == x;
        assert IsEqual(up, x, x);
      }
    }
  }

  lemma MoveToFacts(up: CaseMap, s: seq<string>, d: nat, i: nat)
    requires i < d < |s| && Unmasked(up, s, i)
    ensures Unmasked(up, MoveTo(s, d, i), i)
    ensures SameSymbols(up, s, MoveTo(s, d, i))
    ensures |MoveTo(s, d, i)| == |s| && MoveTo(s, d, i)[i] == s[d]
  {
    var t := MoveTo(s, d, i);
    forall a, b | 0 <= a < i && a < b < |t| ensures !Masks(up, t[a], t[b]) {
      assert t[a] == s[a];
      assert t[b] == if b < i then s[b] else if b == i then s[d] else if b <= d then s[b - 1] else s[b];
    }
    forall x | x in s ensures Present(up, x, t) {
      var k :| 0 <= k < |s| && s[k] == x;
      assert t[if k < i then k else if k < d then k + 1 else if k == d then i else k] == x;
      assert IsEqual(up, x, x);
    }
  }

  lemma SameSymbolsTrans(up: CaseMap, s: seq<string>, t: seq<string>, u: seq<string>)
    ensures SameSymbols(up, s, t) && SameSymbols(up, t, u) ==> SameSymbols(up, s, u)
  {
    if SameSymbols(up, s, t) && SameSymbols(up, t, u) {
      forall x | x in s ensures Present(up, x, u) {
        var y :| y in t && IsEqual(up, x, y);
        assert Present(up, y, u);
        var z :| z in u && IsEqual(up, y, z);
      }
    }
  }

  /** The reordering loop. Afterwards no symbol hides a later one, and the symbols are the same
      up to repetition. */
  method Reorder(up: CaseMap, strs: seq<string>) returns (symbols: seq<string>)
    ensures Unmasked(up, symbols, |symbols|)
    ensures SameSymbols(up, strs, symbols)
    ensures strs != [] ==> symbols != []
  {
    hide Masks, IsEqual, MoveTo, CutOut, SameSymbols, Unmasked, MaxLength;
    symbols := strs;
    Reflexive(up, strs);
    NothingYet(up, strs);
    var i := 0;
    while i < |symbols| - 1
      invariant 0 <= i && (i < |symbols| || symbols == [])
      invariant Unmasked(up, symbols, i)
      invariant SameSymbols(up, strs, symbols)
      invariant strs != [] ==> symbols != []
      decreases |symbols|, |symbols| - i, MaxLength(strs) - (if i < |symbols| then |symbols[i]| else 0)
    {
      var cur := symbols[i];
      SymbolLength(up, strs, symbols, i);
      var j, found := FindBlocked(up, symbols, i);
      if !found {
        UnmaskedNext(up, symbols, i);
        i := i + 1;
      } else if IsEqual(up, symbols[j], cur) {
        CutOutFacts(up, symbols, j, i);
        SameSymbolsTrans(up, strs, symbols, CutOut(symbols, j));
        CutOutLength(symbols, j);
        symbols := CutOut(symbols, j);
      } else {
        MoveToFacts(up, symbols, j, i);
        SameSymbolsTrans(up, strs, symbols, MoveTo(symbols, j, i));
        EqualEitherWay(up, symbols[j], cur);
        MasksLonger(up, cur, symbols[j]);
        SymbolLength(up, strs, symbols, j);
        symbols := MoveTo(symbols, j, i);
      }
    }
    LastUnmasked(up, symbols, i);
  }

  lemma NothingYet(up: CaseMap, s: seq<string>)
    ensures Unmasked(up, s, 0)
  {
  }

  lemma UnmaskedNext(up: CaseMap, s: seq<string>, i: nat)
    requires i < |s| && Unmasked(up, s, i) && forall b :: i < b < |s| ==> !Masks(up, s[i], s[b])
    ensures Unmasked(up, s, i + 1)
  {
  }

  lemma LastUnmasked(up: CaseMap, s: seq<string>, i: nat)
    requires Unmasked(up, s, i) && i >= |s| - 1
    ensures Unmasked(up, s, |s|)
  {
  }

  lemma SymbolLength(up: CaseMap, strs: seq<string>, s: seq<string>, k: nat)
    requires SameSymbols(up, strs, s) && k < |s|
    ensures |s[k]| <= MaxLength(strs)
  {
    assert s[k] in s;
    MaxLengthBound(strs, s[k]);
  }

  lemma Reflexive(up: CaseMap, s: seq<string>)
    ensures SameSymbols(up, s, s)
  {
    forall x | x in s ensures Present(up, x, s) { assert IsEqual(up, x, x); }
  }

  lemma EqualEitherWay(up: CaseMap, a: string, b: string)
    ensures IsEqual(up, a, b) <==> IsEqual(up, b, a)
  {
  }

  lemma CutOutLength(s: seq<string>, d: nat)
    requires d < |s|
    ensures |CutOut(s, d)| == |s| - 1
  {
  }

  /** The inner loop: the first later symbol that repeats the current one or starts with it. */
  method FindBlocked(up: CaseMap, symbols: seq<string>, i: nat) returns (j: nat, found: bool)
    requires i < |symbols|
    ensures found ==> i < j < |symbols| && Masks(up, symbols[i], symbols[j])
    ensures !found ==> forall b :: i < b < |symbols| ==> !Masks(up, symbols[i], symbols[b])
  {
    j := i + 1;
    while j < |symbols|
      invariant i < j <= |symbols|
      invariant forall b :: i < b < j ==> !Masks(up, symbols[i], symbols[b])
    {
      if IsEqual(up, symbols[j], symbols[i]) || Masks(up, symbols[i], symbols[j]) {
        return j, true;
      }
      j := j + 1;
    }
    found := false;
  }

  // ----- matching -----

  /** A literal matches the text from here on. */
  predicate MatchesHere(up: CaseMap, sym: string, text: string) {
    Masks(up, sym, text)
  }

  /** The first alternative that matches. */
  function FirstMatch(up: CaseMap, symbols: seq<string>, text: string): Option<string> {
    if symbols == [] then None
    else if MatchesHere(up, symbols[0], text) then Some(symbols[0])
    else FirstMatch(up, symbols[1..], text)
  }

  /** `r` is one of the symbols, matches, and is as long as any symbol that does; or it is `None`
      and none does. */
  ghost predicate IsLongestMatch(up: CaseMap, symbols: seq<string>, text: string, r: Option<string>) {
    match r
    case None => forall x :: x in symbols ==> !MatchesHere(up, x, text)
    case Some(y) =>
      && y in symbols && MatchesHere(up, y, text)
      && forall x :: x in symbols && MatchesHere(up, x, text) ==> |x| <= |y|
  }

  /** The longest match is the same text up to case, whichever symbol spells it. */
  lemma LongestMatchUnique(up: CaseMap, symbols: seq<string>, text: string, r: Option<string>, t: Option<string>)
    requires IsLongestMatch(up, symbols, text, r) && IsLongestMatch(up, symbols, text, t)
    ensures r.Some? == t.Some? && (r.Some? ==> IsEqual(up, r.value, t.value))
  {
  }

  lemma {:induction false} FirstIsLongest(up: CaseMap, symbols: seq<string>, text: string)
    requires Unmasked(up, symbols, |symbols|)
    ensures IsLongestMatch(up, symbols, text, FirstMatch(up, symbols, text))
    decreases |symbols|
  {
    if symbols != [] {
      var rest := symbols[1..];
      forall a, b | 0 <= a < |rest| && a < b < |rest| ensures !Masks(up, rest[a], rest[b]) {
        assert rest[a] == symbols[a + 1] && rest[b] == symbols[b + 1];
      }
      FirstIsLongest(up, rest, text);
      if MatchesHere(up, symbols[0], text) {
        forall x | x in symbols && MatchesHere(up, x, text) ensures |x| <= |symbols[0]| {
          var b :| 0 <= b < |symbols| && symbols[b] == x;
          PrefixesNest(up, symbols[0], x, text);
        }
      }
    }
  }

  /** Of two literals that match at the same place, the shorter starts the longer. */
  lemma PrefixesNest(up: CaseMap, a: string, b: string, text: string)
    requires MatchesHere(up, a, text) && MatchesHere(up, b, text)
    ensures |a| <= |b| ==> Masks(up, a, b)
  {
  }

  /** The longest match depends on the set of symbols only. */
  lemma LongestMatchSame(up: CaseMap, s: seq<string>, t: seq<string>, text: string, r: Option<string>)
    requires SameSymbols(up, s, t) && IsLongestMatch(up, t, text, r)
    ensures IsLongestMatch(up, s, text, r)
  {
    forall x | x in s && MatchesHere(up, x, text)
      ensures r.Some? && |x| <= |r.value|
    {
      assert Present(up, x, t);
      var y :| y in t && IsEqual(up, x, y);
      assert |Fold(up, x)| == |Fold(up, y)|;
      assert MatchesHere(up, y, text);
    }
  }

  // ----- the parser that is returned -----

  /** Nothing, a one-character class over the characters of the symbols, or the alternatives in order. */
  datatype Parser = NoMatch | CharClass(symbols: seq<string>) | Alternatives(symbols: seq<string>)

  function Joined(symbols: seq<string>): string {
    if symbols == [] then "" else symbols[0] + Joined(symbols[1..])
  }

  /** The token the parser returns at the start of the text. */
  function Match(up: CaseMap, p: Parser, text: string): Option<string> {
    match p
    case NoMatch => None
    case CharClass(symbols) => if text != "" && text[0] in Joined(symbols) then Some([text[0]]) else None
    case Alternatives(symbols) => FirstMatch(up, symbols, text)
  }

  const SameCase: CaseMap := (c: char) => c

  /** The list without its repeats. */
  function Distinct(s: seq<string>): (r: seq<string>)
    ensures forall x :: x in r <==> x in s
    ensures NoRepeats(r)
  {
    if s == [] then [] else
      var rest := Distinct(s[1..]);
      if s[0] in rest then rest else [s[0]] + rest
  }

  ghost predicate NoRepeats(s: seq<string>) {
    forall i, j :: 0 <= i < j < |s| ==> s[i] != s[j]
  }

  lemma {:induction false} JoinedCut(s: seq<string>, k: nat)
    requires k < |s|
    ensures |Joined(s)| == |Joined(CutOut(s, k))| + |s[k]|
    decreases k
  {
    if k > 0 {
      JoinedCut(s[1..], k - 1);
      assert CutOut(s, k)[1..] == CutOut(s[1..], k - 1) && CutOut(s, k)[0] == s[0];
    } else {
      assert CutOut(s, 0) == s[1..];
    }
  }

  /** Lists of the same elements without repeats have as many of them, and as many characters. */
  lemma {:induction false} SameTotals(s: seq<string>, t: seq<string>)
    requires NoRepeats(s) && NoRepeats(t) && forall x :: x in s <==> x in t
    ensures |s| == |t| && |Joined(s)| == |Joined(t)|
    decreases |s|
  {
    assert t == [] || t[0] in t;
    if s != [] {
      assert s[0] in t;
      var k :| 0 <= k < |t| && t[k] == s[0];
      var rest, cut := s[1..], CutOut(t, k);
      assert forall i :: 0 <= i < |cut| ==> cut[i] == t[if i < k then i else i + 1];
      CutMembers(t, k);
      CutMembers(s, 0);
      assert CutOut(s, 0) == rest;
      JoinedCut(t, k);
      SameTotals(rest, cut);
    }
  }

  lemma CutMembers(s: seq<string>, k: nat)
    requires NoRepeats(s) && k < |s|
    ensures forall x :: x in CutOut(s, k) <==> x in s && x != s[k]
  {
    var cut := CutOut(s, k);
    assert forall i :: 0 <= i < |cut| ==> cut[i] == s[if i < k then i else i + 1];
    forall x | x in s && x != s[k] ensures x in cut {
      var i :| 0 <= i < |s| && s[i] == x;
      assert cut[if i < k then i else i - 1] == x;
    }
  }

  /** The reordered symbols are the distinct ones when case matters. */
  lemma ReorderedTotals(strs: seq<string>, symbols: seq<string>)
    requires Unmasked(SameCase, symbols, |symbols|) && SameSymbols(SameCase, strs, symbols)
    ensures |symbols| == |Distinct(strs)| && |Joined(symbols)| == |Joined(Distinct(strs))|
  {
    forall i, j | 0 <= i < j < |symbols| ensures symbols[i] != symbols[j] {
      assert !Masks(SameCase, symbols[i], symbols[j]);
      assert Masks(SameCase, symbols[i], symbols[i]);
    }
    forall x | x in strs ensures x in symbols {
      assert Present(SameCase, x, symbols);
      var y :| y in symbols && IsEqual(SameCase, x, y);
      FoldSame(x);
      FoldSame(y);
    }
    SameTotals(symbols, Distinct(strs));
  }

  /** As many characters as symbols is taken to mean one character each. The parser returns the
      longest given symbol on every text unless it is a character class made from the empty symbol. */
  method Build(up: CaseMap, strs: seq<string>, caseless: bool, useRegex: bool) returns (p: Parser)
    requires !caseless ==> up == SameCase
    ensures p.NoMatch? <==> strs == []
    ensures p.CharClass? <==> strs != [] && !caseless && useRegex && |Joined(Distinct(strs))| == |Distinct(strs)|
    ensures !p.NoMatch? ==> Unmasked(up, p.symbols, |p.symbols|) && SameSymbols(up, strs, p.symbols)
    ensures (forall text :: IsLongestMatch(up, strs, text, Match(up, p, text))) <==> !(p.CharClass? && "" in strs)
  {
    hide Masks, Unmasked;
    if strs == [] {
      return NoMatch;
    }
    var symbols := Reorder(up, strs);
    if !caseless { ReorderedTotals(strs, symbols); }
    if !caseless && useRegex && |symbols| == |Joined(symbols)| {
      p := CharClass(symbols);
      assert MatchesHere(up, "", "") by { EmptyMatches(up); }
      if "" !in strs {
        forall text ensures IsLongestMatch(up, strs, text, Match(up, p, text)) {
          CharClassExact(up, symbols);
          FirstIsLongest(up, symbols, text);
          LongestMatchSame(up, strs, symbols, text, FirstMatch(up, symbols, text));
        }
      } else {
        assert !IsLongestMatch(up, strs, "", Match(up, p, ""));
      }
      return;
    }
    p := Alternatives(symbols);
    forall text ensures IsLongestMatch(up, strs, text, Match(up, p, text)) {
      FirstIsLongest(up, symbols, text);
      LongestMatchSame(up, strs, symbols, text, FirstMatch(up, symbols, text));
    }
  }

  lemma EmptyMatches(up: CaseMap)
    ensures MatchesHere(up, "", "")
  {
  }

  lemma {:induction false} SingleCharacters(symbols: seq<string>)
    requires forall k :: 0 <= k < |symbols| ==> symbols[k] != ""
    ensures |Joined(symbols)| >= |symbols|
    ensures |Joined(symbols)| == |symbols| ==> forall k :: 0 <= k < |symbols| ==> |symbols[k]| == 1
    decreases |symbols|
  {
    if symbols != [] {
      SingleCharacters(symbols[1..]);
      assert forall k :: 0 < k < |symbols| ==> symbols[k] == symbols[1..][k - 1];
    }
  }

  lemma {:induction false} JoinedMembers(symbols: seq<string>, c: char)
    requires forall k :: 0 <= k < |symbols| ==> |symbols[k]| == 1
    ensures c in Joined(symbols) <==> exists k :: 0 <= k < |symbols| && symbols[k] == [c]
    decreases |symbols|
  {
    if symbols != [] {
      var rest := symbols[1..];
      JoinedMembers(rest, c);
      assert symbols[0] == [symbols[0][0]];
      assert Joined(symbols) == [symbols[0][0]] + Joined(rest);
      if k :| 0 <= k < |rest| && rest[k] == [c] { assert symbols[k + 1] == [c]; }
      if k :| 0 < k < |symbols| && symbols[k] == [c] { assert rest[k - 1] == [c]; }
    }
  }

  /** The one-character class stands for its symbols exactly when none of them is empty. */
  lemma CharClassExact(up: CaseMap, symbols: seq<string>)
    requires up == SameCase && |symbols| == |Joined(symbols)|
    ensures (forall text :: Match(up, CharClass(symbols), text) == FirstMatch(up, symbols, text)) <==> "" !in symbols
  {
    if "" in symbols {
      FindsEmpty(up, symbols);
      assert Match(up, CharClass(symbols), "").None?;
    } else {
      SingleCharacters(symbols);
      forall text ensures Match(up, CharClass(symbols), text) == FirstMatch(up, symbols, text) {
        FirstOfSingles(up, symbols, text);
        if text != "" { JoinedMembers(symbols, text[0]); }
      }
    }
  }

  lemma {:induction false} FindsEmpty(up: CaseMap, symbols: seq<string>)
    requires "" in symbols
    ensures FirstMatch(up, symbols, "").Some?
    decreases |symbols|
  {
    if symbols[0] != "" { FindsEmpty(up, symbols[1..]); }
  }

  lemma {:induction false} FirstOfSingles(up: CaseMap, symbols: seq<string>, text: string)
    requires up == SameCase && forall k :: 0 <= k < |symbols| ==> |symbols[k]| == 1
    ensures FirstMatch(up, symbols, text) ==
      if text != "" && exists k :: 0 <= k < |symbols| && symbols[k] == [text[0]] then Some([text[0]]) else None
    decreases |symbols|
  {
    if symbols != [] {
      var s, rest := symbols[0], symbols[1..];
      FirstOfSingles(up, rest, text);
      FoldSame(s);
      FoldSame(text);
      if text != "" {
        assert MatchesHere(up, s, text) <==> s == [text[0]] by {
          assert s == [s[0]];
          assert s <= text <==> s[0] == text[0];
        }
        if k :| 0 <= k < |rest| && rest[k] == [text[0]] { assert symbols[k + 1] == [text[0]]; }
        if k :| 0 < k < |symbols| && symbols[k] == [text[0]] { assert rest[k - 1] == [text[0]]; }
      }
    }
  }

  lemma FoldSame(s: string)
    ensures Fold(SameCase, s) == s
  {
  }

  /** The shortcut goes wrong on the empty symbol: for `["", "ab"]` it accepts `a` alone, and not the empty text. */
  lemma CharClassMisread()
    ensures var symbols := ["ab", ""];
      && Unmasked(SameCase, symbols, 2) && |symbols| == |Joined(symbols)|
      && Match(SameCase, CharClass(symbols), "a") == Some("a") && FirstMatch(SameCase, symbols, "a") == Some("")
      && Match(SameCase, CharClass(symbols), "ab") == Some("a") && FirstMatch(SameCase, symbols, "ab") == Some("ab")
      && Match(SameCase, CharClass(symbols), "") == None && FirstMatch(SameCase, symbols, "") == Some("")
  {
    var symbols := ["ab", ""];
    assert symbols[1..] == [""] && [""][1..] == [];
    assert Joined([""]) == "" + Joined([]) == "";
    assert Joined(symbols) == "ab" + "" == "ab";
    FoldSame("ab");
    FoldSame("a");
    FoldSame("");
    assert !("ab" <= "a") && !("ab" <= "");
  }
}
