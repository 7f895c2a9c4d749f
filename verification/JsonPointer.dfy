/** JSON pointers: escaping as in section 4 of RFC 6901, percent-decoding, and resolution
    against documents of nested objects. */
module JsonPointer {
  import opened Results
  import opened Strings

  datatype PointerError = NoLeadingSlash | MemberNotFound | NotIndexable

  // ----- escaping -----

  /** `s.replace(c, "~" + d)` for a single character c */
  function ReplaceChar(s: string, c: char, d: char): string {
    if s == "" then ""
    else (if s[0] == c then ['~', d] else [s[0]]) + ReplaceChar(s[1..], c, d)
  }

  /** `s.replace("~" + d, c)`: left to right, without overlap. */
  function ReplacePair(s: string, d: char, c: char): string {
    if s == "" then ""
    else if |s| >= 2 && s[0] == '~' && s[1] == d then [c] + ReplacePair(s[2..], d, c)
    else [s[0]] + ReplacePair(s[1..], d, c)
  }

  function Escape(part: string): string {
    ReplaceChar(ReplaceChar(part, '~', '0'), '/', '1')
  }

  function Unescape(part: string): string {
    ReplacePair(ReplacePair(part, '1', '/'), '0', '~')
  }

  predicate StartsEscape(s: string) {
    |s| >= 3 && s[0] == '%' && IsHexDigit(s[1]) && IsHexDigit(s[2])
  }

  /** Percent-decoding, one escape to one character; anything else is left alone. */
  function Unquote(s: string): string {
    if s == "" then ""
    else if StartsEscape(s) then [(16 * HexDigitValue(s[1]) + HexDigitValue(s[2])) as char] + Unquote(s[3..])
    else [s[0]] + Unquote(s[1..])
  }

  /** A percent sign followed by two hex digits somewhere in the text. */
  predicate HasEscape(s: string) {
    s != "" && (StartsEscape(s) || HasEscape(s[1..]))
  }

  /** Percent-decoding changes exactly the texts that hold an escape. */
  lemma {:induction false} UnquoteExact(s: string)
    ensures |Unquote(s)| <= |s|
    ensures Unquote(s) == s <==> !HasEscape(s)
    ensures HasEscape(s) ==> |Unquote(s)| < |s|
    decreases |s|
  {
    if s != "" {
      if StartsEscape(s) {
        UnquoteExact(s[3..]);
      } else {
        UnquoteExact(s[1..]);
        assert s == [s[0]] + s[1..];
      }
    }
  }

  /** Escaping in one pass over the characters. */
  function EscapeChar(c: char): string {
    if c == '~' then "~0" else if c == '/' then "~1" else [c]
  }

  lemma {:induction false} EscapeCons(s: string)
    requires s != ""
    ensures Escape(s) == EscapeChar(s[0]) + Escape(s[1..])
  {
    var inner := ReplaceChar(s[1..], '~', '0');
    var half := ReplaceChar(s, '~', '0');
    if s[0] == '~' {
      assert half == ['~'] + (['0'] + inner);
      assert half[1..] == ['0'] + inner && half[1..][1..] == inner;
      var zero := ['0'] + inner;
      assert zero[1..] == inner && ReplaceChar(zero, '/', '1') == ['0'] + ReplaceChar(inner, '/', '1');
      assert ReplaceChar(half, '/', '1') == ['~'] + ReplaceChar(zero, '/', '1');
      assert EscapeChar('~') == ['~'] + ['0'];
    } else {
      assert half == [s[0]] + inner && half[1..] == inner;
    }
  }

  /** Unescaping undoes escaping, and an escaped part holds no slash. */
  lemma {:induction false} EscapeRoundTrip(s: string)
    ensures Unescape(Escape(s)) == s
    ensures '/' !in Escape(s)
    decreases |s|
  {
    if s != "" {
      EscapeRoundTrip(s[1..]);
      EscapeCons(s);
      SlashPass(s[0], Escape(s[1..]));
      TildePass(s[0], ReplacePair(Escape(s[1..]), '1', '/'));
      assert s == [s[0]] + s[1..];
    }
  }

  /** What is left of an escaped character after the first replacement. */
  function HalfWay(c: char): string {
    if c == '~' then "~0" else [c]
  }

  lemma SlashPass(c: char, rest: string)
    ensures ReplacePair(EscapeChar(c) + rest, '1', '/') == HalfWay(c) + ReplacePair(rest, '1', '/')
  {
    var s := EscapeChar(c) + rest;
    if c == '~' {
      assert s[1..] == "0" + rest && s[1..][1..] == rest;
    } else if c == '/' {
      assert s[2..] == rest;
    } else {
      assert s[1..] == rest;
    }
  }

  lemma TildePass(c: char, rest: string)
    ensures ReplacePair(HalfWay(c) + rest, '0', '~') == [c] + ReplacePair(rest, '0', '~')
  {
    var s := HalfWay(c) + rest;
    if c == '~' {
      assert s[2..] == rest;
    } else {
      assert s[1..] == rest;
    }
  }

  /** Escaping neither adds nor removes percent escapes. */
  lemma {:induction false} EscapeKeepsEscapes(s: string)
    ensures HasEscape(Escape(s)) <==> HasEscape(s)
    decreases |s|
  {
    if s != "" {
      EscapeKeepsEscapes(s[1..]);
      EscapeCons(s);
      EscapedPrefix(s[1..]);
      hide Escape;
      EscapeOfCons(s[0], Escape(s[1..]));
    }
  }

  lemma EscapeOfCons(c: char, rest: string)
    ensures HasEscape(EscapeChar(c) + rest) <==>
      HasEscape(rest) || (c == '%' && |rest| >= 2 && IsHexDigit(rest[0]) && IsHexDigit(rest[1]))
  {
    hide HasEscape, IsHexDigit;
    if c == '~' || c == '/' {
      var d := EscapeChar(c)[1];
      var e := ['~'] + ([d] + rest);
      assert EscapeChar(c) + rest == e;
      HasEscapeCons('~', [d] + rest);
      HasEscapeCons(d, rest);
    } else {
      HasEscapeCons(c, rest);
    }
  }

  lemma HasEscapeCons(c: char, rest: string)
    ensures HasEscape([c] + rest) <==>
      HasEscape(rest) || (c == '%' && |rest| >= 2 && IsHexDigit(rest[0]) && IsHexDigit(rest[1]))
  {
    hide IsHexDigit;
    assert ([c] + rest)[1..] == rest;
  }

  /** The first two characters of an escaped text are hex digits exactly when those of the text are. */
  lemma EscapedPrefix(s: string)
    ensures |Escape(s)| >= 2 && IsHexDigit(Escape(s)[0]) && IsHexDigit(Escape(s)[1]) <==> |s| >= 2 && IsHexDigit(s[0]) && IsHexDigit(s[1])
  {
    if s != "" {
      EscapeCons(s);
      if s[1..] != "" { EscapeCons(s[1..]); }
      assert Escape("") == "";
    }
  }

  // ----- pointers as texts -----

  /** `''.join('/' + part for part in parts)`, each part escaped */
  function PathText(parts: seq<string>): string {
    if parts == [] then "" else ['/'] + Escape(parts[0]) + PathText(parts[1..])
  }

  function DecodeAll(pieces: seq<string>): seq<string> {
    seq(|pieces|, i requires 0 <= i < |pieces| => Unescape(Unquote(pieces[i])))
  }

  /** The constructor: split, decode, unescape. */
  function Parse(pointer: string): Result<seq<string>, PointerError> {
    var pieces := Split(pointer, '/');
    if pieces[0] != "" then Err(NoLeadingSlash) else Ok(DecodeAll(pieces[1..]))
  }

  /** A pointer text is empty or starts with a slash, and has as many parts as slashes. */
  lemma ParseExact(pointer: string)
    ensures Parse(pointer).Ok? <==> pointer == "" || pointer[0] == '/'
    ensures Parse(pointer).Ok? ==> |Parse(pointer).value| == multiset(pointer)['/']
  {
    SplitCount(pointer, '/');
  }

  /** `from_parts`: the pointer object goes through its own text. */
  function FromParts(parts: seq<string>): Result<seq<string>, PointerError> {
    Parse(PathText(parts))
  }

  predicate Clean(parts: seq<string>) {
    forall i :: 0 <= i < |parts| ==> !HasEscape(parts[i])
  }

  function EscapeAll(parts: seq<string>): seq<string> {
    seq(|parts|, i requires 0 <= i < |parts| => Escape(parts[i]))
  }

  lemma {:induction false} SplitPath(parts: seq<string>)
    ensures Split(PathText(parts), '/') == [""] + EscapeAll(parts)
    decreases |parts|
  {
    if parts == [] {
      assert EscapeAll(parts) == [];
    } else {
      SplitPath(parts[1..]);
      EscapeRoundTrip(parts[0]);
      var p, rest := Escape(parts[0]), PathText(parts[1..]);
      assert PathText(parts) == ['/'] + (p + rest);
      hide Escape, Split, PathText;
      SplitSlash(p + rest);
      RestIsRooted(parts[1..]);
      SplitPiece(p, rest);
      EscapeAllCons(parts);
      ConsTail("", EscapeAll(parts[1..]));
    }
  }

  lemma RestIsRooted(parts: seq<string>)
    ensures PathText(parts) == "" || PathText(parts)[0] == '/'
  {
  }

  lemma EscapeAllCons(parts: seq<string>)
    requires parts != []
    ensures EscapeAll(parts) == [Escape(parts[0])] + EscapeAll(parts[1..])
  {
  }

  lemma ConsTail(s: string, t: seq<string>)
    ensures ([s] + t)[1..] == t
  {
  }

  lemma SplitSlash(s: string)
    ensures Split(['/'] + s, '/') == [""] + Split(s, '/')
  {
    SplitFirst("", s, '/');
    assert "" + ['/'] + s == ['/'] + s;
  }

  lemma SplitPiece(p: string, rest: string)
    requires '/' !in p && (rest == "" || rest[0] == '/')
    ensures Split(p + rest, '/') == [p] + Split(rest, '/')[1..]
  {
    if rest == "" {
      assert p + rest == p;
      SplitNone(p, '/');
    } else {
      SplitSlash(rest[1..]);
      assert ['/'] + rest[1..] == rest;
      SplitFirst(p, rest[1..], '/');
      assert p + ['/'] + rest[1..] == p + rest;
    }
  }

  /** What the constructor makes of one escaped part. */
  function Reread(part: string): string {
    Unescape(Unquote(Escape(part)))
  }

  /** One more character in front adds at most one to the unescaped text. */
  lemma UnescapeGrows(x: char, t: string)
    ensures |Unescape([x] + t)| <= 1 + |Unescape(t)|
  {
    assert ([x] + t)[1..] == t;
    var q := ReplacePair(t, '1', '/');
    if x == '~' && t != "" && t[0] == '1' {
      assert ([x] + t)[2..] == t[1..];
      var q' := ReplacePair(t[1..], '1', '/');
      assert q == ['1'] + q' && (['1'] + q')[1..] == q' && (['/'] + q')[1..] == q';
    } else {
      PairGrows([x] + q, q);
    }
  }

  lemma PairGrows(s: string, q: string)
    requires s != "" && s[1..] == q
    ensures |ReplacePair(s, '0', '~')| <= 1 + |ReplacePair(q, '0', '~')|
  {
    if |s| >= 2 && s[0] == '~' && s[1] == '0' { assert s[2..] == q[1..] && q[0] == '0'; }
  }

  lemma RereadPlain(c: char, rest: string)
    requires c == '~' || c == '/'
    ensures Unquote(EscapeChar(c) + rest) == EscapeChar(c) + Unquote(rest)
    ensures Unescape(EscapeChar(c) + Unquote(rest)) == [c] + Unescape(Unquote(rest))
  {
    var e, d := EscapeChar(c) + rest, EscapeChar(c)[1];
    assert e[1..] == [d] + rest && ([d] + rest)[1..] == rest;
    assert EscapeChar(c) == ['~', d];
    assert Unquote(e) == ['~'] + ([d] + Unquote(rest));
    SlashPass(c, Unquote(rest));
    TildePass(c, ReplacePair(Unquote(rest), '1', '/'));
  }

  lemma RereadHex(s: string)
    requires StartsEscape(s)
    ensures Unquote(Escape(s)) == [(16 * HexDigitValue(s[1]) + HexDigitValue(s[2])) as char] + Unquote(Escape(s[3..]))
  {
    hide Escape;
    EscapeCons(s);
    EscapeCons(s[1..]);
    EscapeCons(s[2..]);
    assert s[1..][1..] == s[2..] && s[2..][1..] == s[3..];
    var rest := Escape(s[3..]);
    assert Escape(s) == [s[0], s[1], s[2]] + rest;
    assert ([s[0], s[1], s[2]] + rest)[3..] == rest;
  }

  /** Reading an escaped part back never lengthens it, and shortens it if it holds an escape. */
  lemma {:induction false} RereadLength(s: string)
    ensures |Reread(s)| <= |s|
    ensures HasEscape(s) ==> |Reread(s)| < |s|
    decreases |s|
  {
    if s == "" {
      assert Escape("") == "";
    } else if StartsEscape(s) {
      RereadHex(s);
      RereadLength(s[3..]);
      hide Escape, Unescape, Unquote;
      UnescapeGrows((16 * HexDigitValue(s[1]) + HexDigitValue(s[2])) as char, Unquote(Escape(s[3..])));
    } else {
      RereadLength(s[1..]);
      EscapeCons(s);
      EscapedPrefix(s[1..]);
      var rest := Escape(s[1..]);
      hide Escape, Unescape;
      if s[0] == '~' || s[0] == '/' {
        RereadPlain(s[0], rest);
      } else {
        assert ([s[0]] + rest)[1..] == rest;
        UnescapeGrows(s[0], Unquote(rest));
      }
    }
  }

  /** Parts survive being written as a pointer and read back exactly when none holds a percent
      escape. */
  lemma PointerRoundTrip(parts: seq<string>)
    ensures FromParts(parts) == Ok(parts) <==> Clean(parts)
    ensures FromParts(parts).Ok? && |FromParts(parts).value| == |parts|
  {
    SplitPath(parts);
    assert ([""] + EscapeAll(parts))[1..] == EscapeAll(parts);
    assert FromParts(parts) == Ok(DecodeAll(EscapeAll(parts)));
    forall i | 0 <= i < |parts|
      ensures DecodeAll(EscapeAll(parts))[i] == parts[i] <==> !HasEscape(parts[i])
    {
      EscapeKeepsEscapes(parts[i]);
      UnquoteExact(Escape(parts[i]));
      EscapeRoundTrip(parts[i]);
      RereadLength(parts[i]);
    }
    hide HasEscape, FromParts;
    if Clean(parts) {
      assert DecodeAll(EscapeAll(parts)) == parts;
    } else {
      var i :| 0 <= i < |parts| && HasEscape(parts[i]);
      assert DecodeAll(EscapeAll(parts))[i] != parts[i];
    }
  }

  /** The text of the pointer that `from_parts` makes. */
  function PointerTo(parts: seq<string>): string {
    PointerRoundTrip(parts);
    PathText(FromParts(parts).value)
  }

  /** Where that text leads when it is read again. */
  function Landing(parts: seq<string>): seq<string> {
    seq(|parts|, i requires 0 <= i < |parts| => Reread(Reread(parts[i])))
  }

  lemma PointerLands(parts: seq<string>)
    ensures Parse(PointerTo(parts)) == Ok(Landing(parts))
    ensures Clean(parts) ==> Landing(parts) == parts
  {
    FromPartsRereads(parts);
    FromPartsRereads(FromParts(parts).value);
    PointerRoundTrip(parts);
    hide Reread, PathText;
    assert Parse(PointerTo(parts)).value == Landing(parts);
  }

  lemma FromPartsRereads(parts: seq<string>)
    ensures FromParts(parts) == Ok(seq(|parts|, i requires 0 <= i < |parts| => Reread(parts[i])))
  {
    SplitPath(parts);
    hide Escape, Split, PathText;
    assert ([""] + EscapeAll(parts))[1..] == EscapeAll(parts);
    assert DecodeAll(EscapeAll(parts)) == seq(|parts|, i requires 0 <= i < |parts| => Reread(parts[i]));
  }

  /** A part with a percent escape lands on a shorter part, any other part on itself. */
  lemma LandsAt(parts: seq<string>, i: nat)
    requires i < |parts|
    ensures HasEscape(parts[i]) ==> |Landing(parts)[i]| < |parts[i]|
    ensures !HasEscape(parts[i]) ==> Landing(parts)[i] == parts[i]
  {
    RereadLength(parts[i]);
    RereadLength(Reread(parts[i]));
    EscapeKeepsEscapes(parts[i]);
    UnquoteExact(Escape(parts[i]));
    EscapeRoundTrip(parts[i]);
    hide HasEscape, Escape, Unescape, Unquote;
  }

  lemma LandingTail(parts: seq<string>)
    requires parts != []
    ensures Landing(parts) == [Landing(parts)[0]] + Landing(parts[1..])
  {
    hide Reread;
  }

  /** `contains`: the other pointer's parts come first among these. */
  predicate Contains(parts: seq<string>, other: seq<string>) {
    other <= parts
  }

  /** One pointer contains another exactly when its text goes through the other's text at a
      boundary between parts. */
  lemma {:induction false} ContainsIsTextPrefix(parts: seq<string>, other: seq<string>)
    ensures Contains(parts, other) <==> PathText(other) + "/" <= PathText(parts) + "/"
    decreases |other|
  {
    hide Escape;
    if other != [] && parts != [] {
      ContainsIsTextPrefix(parts[1..], other[1..]);
      PathPrefixStep(parts, other);
    }
    RestIsRooted(parts);
  }

  lemma PathPrefixStep(parts: seq<string>, other: seq<string>)
    requires parts != [] && other != []
    ensures PathText(other) + "/" <= PathText(parts) + "/" <==>
            other[0] == parts[0] && PathText(other[1..]) + "/" <= PathText(parts[1..]) + "/"
  {
    var p, q := Escape(parts[0]), Escape(other[0]);
    var s, t := PathText(parts[1..]) + "/", PathText(other[1..]) + "/";
    EscapeRoundTrip(parts[0]);
    EscapeRoundTrip(other[0]);
    RestIsRooted(parts[1..]);
    RestIsRooted(other[1..]);
    PathCons(parts);
    PathCons(other);
    hide PathText, Escape, Unescape;
    RootedPrefix(q, t, p, s);
    ConsPrefix('/', q + t, p + s);
  }

  lemma PathCons(parts: seq<string>)
    requires parts != []
    ensures PathText(parts) + "/" == ['/'] + (Escape(parts[0]) + (PathText(parts[1..]) + "/"))
  {
    hide Escape;
  }

  lemma RootedPrefix(q: string, t: string, p: string, s: string)
    requires '/' !in p && '/' !in q && s != "" && t != "" && s[0] == '/' && t[0] == '/'
    ensures q + t <= p + s <==> q == p && t <= s
  {
    var a, b := q + t, p + s;
    assert forall i :: 0 <= i < |q| ==> a[i] == q[i] && q[i] in q;
    assert forall i :: 0 <= i < |p| ==> b[i] == p[i] && p[i] in p;
    assert a[|q|] == '/' && b[|p|] == '/';
    assert q == a[..|q|] && p == b[..|p|] && t == a[|q|..] && s == b[|p|..];
    if a <= b {
      assert forall i :: 0 <= i < |a| ==> a[i] == b[i];
      assert |q| == |p|;
    }
  }

  lemma ConsPrefix(c: char, a: string, b: string)
    ensures [c] + a <= [c] + b <==> a <= b
  {
    assert ([c] + a)[1..] == a && ([c] + b)[1..] == b;
  }

  /** A key with a percent escape does not: `%41` comes back as `A`. */
  lemma PercentKeyIsLost()
    ensures FromParts(["%41"]) == Ok(["A"])
  {
    SplitPath(["%41"]);
    assert PathText(["%41"][1..]) == "";
    EscapeCons("%41");
    EscapeCons("41");
    EscapeCons("1");
    assert "%41"[1..] == "41" && "41"[1..] == "1" && "1"[1..] == "";
    assert Escape("") == "";
    assert Escape("%41") == "%41";
    assert EscapeAll(["%41"]) == ["%41"];
    assert ([""] + ["%41"])[1..] == ["%41"];
    assert "%41"[3..] == "" && Unquote("%41") == "A" + Unquote("");
    assert Unescape("A") == "A" by { assert "A"[1..] == ""; assert ReplacePair("A", '1', '/') == "A"; }
    assert DecodeAll(["%41"]) == ["A"];
  }

  lemma PercentKeyLands()
    ensures Parse(PointerTo(["%41"])) == Ok(["A"])
  {
    hide PathText, Parse;
    PercentKeyIsLost();
    PointerRoundTrip(["A"]);
    assert !HasEscape("A");
  }
}
