/** Which texts are addresses, and what they denote, in terms of their groups (section 2.2 of RFC 4291). */
module AddressGrammar {
  import opened Bits
  import opened Results
  import opened Strings
  import opened AddressText

  // ----- numbers -----

  /** One to four hexadecimal digits. */
  ghost predicate IsHextet(s: string, v: nat) {
    0 < |s| <= 4 && (forall c :: c in s ==> IsHexDigit(c)) && v == HexNumber(s)
  }

  /** One to three decimal digits, at most 255; without leading zeroes where that could be octal. */
  ghost predicate IsOctet(s: string, v: nat) {
    0 < |s| <= 3 && (forall c :: c in s ==> IsDigit(c)) && v == DecNumber(s) <= 255 && (v <= 7 || s[0] != '0')
  }

  /** Digits count from the left. */
  lemma NumberDigits(s: string, c: char)
    ensures (forall x :: x in s ==> IsHexDigit(x)) && IsHexDigit(c) ==>
      (forall x :: x in s + [c] ==> IsHexDigit(x)) && HexNumber(s + [c]) == 16 * HexNumber(s) + HexDigitValue(c)
    ensures (forall x :: x in s ==> IsDigit(x)) && IsDigit(c) ==>
      (forall x :: x in s + [c] ==> IsDigit(x)) && DecNumber(s + [c]) == 10 * DecNumber(s) + (c - '0') as nat
  {
    var t := s + [c];
    assert t[..|t| - 1] == s && t[|t| - 1] == c;
  }

  lemma HextetExact(s: string, v: nat)
    ensures ParseHextet(s) == Ok(v) <==> IsHextet(s, v)
  {
    hide HexNumber;
  }

  lemma OctetExact(s: string, v: nat)
    ensures ParseOctet(s) == Ok(v) <==> IsOctet(s, v)
  {
    hide DecNumber;
  }

  // ----- dotted quads -----

  ghost predicate AreOctets(octets: seq<string>, v: seq<nat>) {
    |octets| == |v| && forall i :: 0 <= i < |octets| ==> IsOctet(octets[i], v[i])
  }

  /** Four octets between dots, the first the most significant. */
  ghost predicate IsQuad(text: string, n: nat) {
    exists octets, v :: QuadOf(octets, v, n) && text == Join(octets, '.')
  }

  ghost predicate QuadOf(octets: seq<string>, v: seq<nat>, n: nat) {
    |v| == 4 && AreOctets(octets, v) && n == v[0] * 0x100_0000 + v[1] * 0x1_0000 + v[2] * 0x100 + v[3]
  }

  /** The parser accepts exactly the dotted quads. */
  lemma V4Exact(text: string, n: nat)
    ensures ParseV4(text) == Ok(n) <==> IsQuad(text, n)
  {
    if ParseV4(text) == Ok(n) {
      var octets := Split(text, '.');
      JoinSplit(text, '.');
      hide Split, Join;
      var v := seq(4, i requires 0 <= i < 4 => ParseOctet(octets[i]).value);
      forall i | 0 <= i < 4 ensures IsOctet(octets[i], v[i]) { OctetExact(octets[i], v[i]); }
      hide ParseOctet, IsOctet;
      assert QuadOf(octets, v, n);
    }
    if octets, v :| QuadOf(octets, v, n) && text == Join(octets, '.') {
      QuadParses(octets, v);
    }
  }

  lemma QuadParses(octets: seq<string>, v: seq<nat>)
    requires |v| == 4 && AreOctets(octets, v)
    ensures ParseV4(Join(octets, '.')) == Ok(v[0] * 0x100_0000 + v[1] * 0x1_0000 + v[2] * 0x100 + v[3])
  {
    forall i | 0 <= i < 4 ensures ParseOctet(octets[i]) == Ok(v[i]) && '.' !in octets[i] {
      OctetExact(octets[i], v[i]);
      NoDot(octets[i], v[i]);
    }
    hide ParseOctet, Join, Split, ParseV4, IsOctet;
    V4Parts(octets, v[0], v[1], v[2], v[3]);
  }

  lemma NoDot(s: string, v: nat)
    requires IsOctet(s, v)
    ensures '.' !in s && ':' !in s
  {
    assert '.' in s ==> IsDigit('.');
    assert ':' in s ==> IsDigit(':');
  }

  // ----- groups -----

  ghost predicate AreHextets(parts: seq<string>, g: seq<nat>) {
    |parts| == |g| && forall i :: 0 <= i < |parts| ==> IsHextet(parts[i], g[i])
  }

  /** Hextets, of which the last two may be written as a dotted quad. */
  ghost predicate Denotes(parts: seq<string>, g: seq<nat>) {
    || AreHextets(parts, g)
    || (|parts| > 0 && |g| == |parts| + 1 && AreGroups(g)
        && AreHextets(parts[..|parts| - 1], g[..|g| - 2])
        && IsQuad(parts[|parts| - 1], g[|g| - 2] * RADIX + g[|g| - 1]))
  }

  /** Eight groups between colons; or at most seven with one double colon, which stands for as many
      zero groups as are missing. */
  ghost predicate IsAddress(text: string, n: nat) {
    || (exists parts, g :: Denotes(parts, g) && |g| == 8 && text == Join(parts, ':') && n == Assemble(0, g))
    || (exists high, a, low, b :: Elided(text, high, a, low, b) && n == Assemble(0, a + Zeros(8 - |a| - |b|) + b))
  }

  ghost predicate Elided(text: string, high: seq<string>, a: seq<nat>, low: seq<string>, b: seq<nat>) {
    AreHextets(high, a) && Denotes(low, b) && |a| + |b| <= 7 && text == Join(high, ':') + "::" + Join(low, ':')
  }

  /** Groups put together from the left. */
  lemma AssembleNext(g: seq<nat>, x: nat)
    ensures Assemble(0, []) == 0 && Assemble(0, g + [x]) == Assemble(0, g) * RADIX + x
  {
    AssembleAppend(0, g, [x]);
    assert [x][1..] == [];
  }

  lemma HextetFacts(s: string, v: nat)
    requires IsHextet(s, v)
    ensures s != "" && ':' !in s && '.' !in s && v < RADIX
  {
    HextetExact(s, v);
    HextetBound(s);
    assert ':' in s ==> IsHexDigit(':');
    assert '.' in s ==> IsHexDigit('.');
  }

  lemma {:induction false} ReadExact(acc: nat, parts: seq<string>, v: nat)
    ensures ReadGroups(acc, parts) == Ok(v) <==> exists g :: AreHextets(parts, g) && v == Assemble(acc, g)
    decreases |parts|
  {
    hide IsHextet, ParseHextet, Or, ShiftLeft;
    if parts == [] {
      assert AreHextets([], []);
    } else {
      var first := ParseHextet(parts[0]);
      forall x: nat ensures first == Ok(x) <==> IsHextet(parts[0], x) { HextetExact(parts[0], x); }
      if first.Ok? {
        HextetFacts(parts[0], first.value);
        ShiftOr(acc, first.value);
        ReadExact(acc * RADIX + first.value, parts[1..], v);
        if ReadGroups(acc, parts) == Ok(v) {
          var g :| AreHextets(parts[1..], g) && v == Assemble(acc * RADIX + first.value, g);
          HextetsCons(parts, first.value, g);
          assert ([first.value] + g)[1..] == g;
        }
        if g :| AreHextets(parts, g) && v == Assemble(acc, g) {
          assert IsHextet(parts[0], g[0]);
          HextetsTail(parts, g);
        }
      } else {
        forall g ensures !AreHextets(parts, g) {}
      }
    }
  }

  lemma HextetsCons(parts: seq<string>, x: nat, g: seq<nat>)
    requires parts != [] && IsHextet(parts[0], x) && AreHextets(parts[1..], g)
    ensures AreHextets(parts, [x] + g)
  {
    hide IsHextet;
    forall i | 0 <= i < |parts| ensures IsHextet(parts[i], ([x] + g)[i]) {
      if i > 0 { assert IsHextet(parts[1..][i - 1], g[i - 1]); }
    }
  }

  lemma HextetsTail(parts: seq<string>, g: seq<nat>)
    requires parts != [] && AreHextets(parts, g)
    ensures AreHextets(parts[1..], g[1..])
  {
    hide IsHextet;
  }

  // ----- dotted tails -----

  /** The parts with a dotted tail written as two hextets. */
  ghost predicate Undotted(parts: seq<string>, q: seq<string>) {
    if parts != [] && '.' in parts[|parts| - 1] then
      exists v: nat :: IsQuad(parts[|parts| - 1], v) && q == parts[..|parts| - 1] + [HexText(v / RADIX), HexText(v % RADIX)]
    else q == parts
  }

  lemma QuadBound(text: string, n: nat)
    requires IsQuad(text, n)
    ensures n / RADIX < RADIX && n / RADIX % RADIX == n / RADIX
  {
    hide Join;
  }

  lemma ReplacedIs(parts: seq<string>, q: seq<string>)
    requires parts != []
    ensures ReplaceDotted(parts) == Ok(q) <==> Undotted(parts, q)
  {
    var last := parts[|parts| - 1];
    hide ParseV4, IsQuad, HexText;
    if '.' in last {
      var r := ParseV4(last);
      if r.Ok? {
        V4Exact(last, r.value);
        QuadBound(last, r.value);
      }
      forall v: nat | IsQuad(last, v) ensures r == Ok(v) { V4Exact(last, v); }
    }
  }

  /** The groups are the same either way. */
  lemma UndottedDenotes(parts: seq<string>, q: seq<string>, g: seq<nat>)
    requires Undotted(parts, q)
    ensures AreHextets(q, g) <==> Denotes(parts, g)
  {
    hide IsQuad, IsHextet;
    if parts != [] && '.' in parts[|parts| - 1] {
      DottedDenotes(parts, q, g);
    } else if parts != [] {
      NoQuad(parts[|parts| - 1]);
    }
  }

  lemma QuadDotted(text: string, n: nat)
    requires IsQuad(text, n)
    ensures '.' in text && ':' !in text
  {
    var octets, v :| QuadOf(octets, v, n) && text == Join(octets, '.');
    forall i | 0 <= i < 4 ensures ':' !in octets[i] { NoDot(octets[i], v[i]); }
    assert octets == [octets[0], octets[1], octets[2], octets[3]];
    JoinFour(octets[0], octets[1], octets[2], octets[3]);
  }

  lemma NoQuad(text: string)
    requires '.' !in text
    ensures forall n: nat :: !IsQuad(text, n)
  {
    hide IsQuad;
    forall n: nat ensures !IsQuad(text, n) {
      if IsQuad(text, n) { QuadDotted(text, n); }
    }
  }

  lemma JoinFour(a: string, b: string, c: string, d: string)
    ensures Join([a, b, c, d], '.') == a + "." + (b + "." + (c + "." + d))
  {
    assert [a, b, c, d][1..] == [b, c, d] && [b, c, d][1..] == [c, d] && [c, d][1..] == [d];
    assert Join([d], '.') == d;
    assert Join([c, d], '.') == c + "." + d;
    assert Join([b, c, d], '.') == b + "." + (c + "." + d);
  }

  lemma HexTextIs(x: nat, v: nat)
    requires x < RADIX
    ensures IsHextet(HexText(x), v) <==> v == x
  {
    HextetRoundTrip(x);
    HextetExact(HexText(x), v);
    HextetExact(HexText(x), x);
    hide IsHextet, ParseHextet;
  }

  lemma DottedDenotes(parts: seq<string>, q: seq<string>, g: seq<nat>)
    requires parts != [] && '.' in parts[|parts| - 1] && Undotted(parts, q)
    ensures AreHextets(q, g) <==> Denotes(parts, g)
  {
    var n, last := |parts| - 1, parts[|parts| - 1];
    hide IsQuad, HexText, IsHextet, ParseV4;
    var v: nat :| IsQuad(last, v) && q == parts[..n] + [HexText(v / RADIX), HexText(v % RADIX)];
    NoHextet(parts, g);
    if AreHextets(q, g) { HexToDotted(parts, v, q, g); }
    if Denotes(parts, g) {
      QuadOnce(last, v, g[|g| - 2] * RADIX + g[|g| - 1]);
      DottedToHex(parts, v, q, g);
    }
  }

  lemma NoHextet(parts: seq<string>, g: seq<nat>)
    requires parts != [] && '.' in parts[|parts| - 1]
    ensures !AreHextets(parts, g)
  {
    hide IsHextet;
    var n := |parts| - 1;
    if AreHextets(parts, g) && IsHextet(parts[n], g[n]) { HextetFacts(parts[n], g[n]); }
  }

  lemma QuadOnce(text: string, v: nat, w: nat)
    requires IsQuad(text, v) && IsQuad(text, w)
    ensures v == w
  {
    hide IsQuad, ParseV4;
    V4Exact(text, v);
    V4Exact(text, w);
  }

  lemma HexToDotted(parts: seq<string>, v: nat, q: seq<string>, g: seq<nat>)
    requires parts != [] && IsQuad(parts[|parts| - 1], v) && AreHextets(q, g)
    requires q == parts[..|parts| - 1] + [HexText(v / RADIX), HexText(v % RADIX)]
    ensures Denotes(parts, g)
  {
    var n := |parts| - 1;
    QuadBound(parts[n], v);
    hide IsQuad, HexText, IsHextet;
    assert IsHextet(q[n], g[n]) && IsHextet(q[n + 1], g[n + 1]);
    HexTextIs(v / RADIX, g[n]);
    HexTextIs(v % RADIX, g[n + 1]);
    assert v / RADIX * RADIX + v % RADIX == v;
    forall i | 0 <= i < n ensures IsHextet(parts[..n][i], g[..n][i]) { assert q[i] == parts[i] && IsHextet(q[i], g[i]); }
    forall i | 0 <= i < |g| ensures g[i] < RADIX { HextetFacts(q[i], g[i]); }
  }

  lemma DottedToHex(parts: seq<string>, v: nat, q: seq<string>, g: seq<nat>)
    requires parts != [] && |g| == |parts| + 1 && AreGroups(g) && v == g[|g| - 2] * RADIX + g[|g| - 1]
    requires AreHextets(parts[..|parts| - 1], g[..|g| - 2])
    requires q == parts[..|parts| - 1] + [HexText(v / RADIX), HexText(v % RADIX)]
    ensures AreHextets(q, g)
  {
    var n := |parts| - 1;
    TwoGroups(g[n], g[n + 1], v);
    HexTextIs(g[n], g[n]);
    HexTextIs(g[n + 1], g[n + 1]);
    hide HexText, IsHextet;
    forall i | 0 <= i < |q| ensures IsHextet(q[i], g[i]) {
      if i < n { assert IsHextet(parts[..n][i], g[..n][i]); }
    }
  }

  lemma TwoGroups(a: nat, b: nat, v: nat)
    requires a < RADIX && b < RADIX && v == a * RADIX + b
    ensures v / RADIX == a && v % RADIX == b
  {
  }

  // ----- the parts of an address -----

  /** Nothing on a side of the double colon leaves one empty part there. */
  function Pad(parts: seq<string>): seq<string> {
    if parts == [] then [""] else parts
  }

  ghost predicate ElidedParts(q: seq<string>, high: seq<string>, a: seq<nat>, low: seq<string>, b: seq<nat>) {
    AreHextets(high, a) && AreHextets(low, b) && |a| + |b| <= 7 && q == Pad(high) + [""] + Pad(low)
  }

  function Filled(a: seq<nat>, b: seq<nat>): nat
    requires |a| + |b| <= 8
  {
    Assemble(0, a + Zeros(8 - |a| - |b|) + b)
  }

  /** The one empty part from place i on, the last part apart. */
  predicate OnlyEmpty(parts: seq<string>, i: nat, at: nat) {
    i <= at < |parts| - 1 && parts[at] == "" && forall k :: i <= k < |parts| - 1 && k != at ==> parts[k] != ""
  }

  lemma {:induction false} ElisionFound(parts: seq<string>, i: nat, found: Option<nat>)
    requires FindElision(parts, i, found).Ok?
    ensures var r := FindElision(parts, i, found).value;
      && (found.Some? ==> r == found && forall k :: i <= k < |parts| - 1 ==> parts[k] != "")
      && (r.None? ==> forall k :: i <= k < |parts| - 1 ==> parts[k] != "")
      && (found.None? && r.Some? ==> OnlyEmpty(parts, i, r.value))
    decreases |parts| - i
  {
    if i < |parts| - 1 {
      if parts[i] != "" { ElisionFound(parts, i + 1, found); } else { ElisionFound(parts, i + 1, Some(i)); }
    }
  }

  lemma LayoutReadsExact(parts: seq<string>, l: Layout, v: nat)
    requires l.hi <= |parts| && l.lo <= |parts| && l.hi + l.lo + l.skipped == 8
    ensures ReadLayout(parts, l) == Ok(v) <==>
      exists a, b :: AreHextets(parts[..l.hi], a) && AreHextets(parts[|parts| - l.lo..], b) && v == Assemble(0, a + Zeros(l.skipped) + b)
  {
    var high, low := parts[..l.hi], parts[|parts| - l.lo..];
    hide ReadGroups, ShiftLeft, Assemble, IsHextet;
    var r := ReadGroups(0, high);
    if r.Ok? {
      ReadExact(0, high, r.value);
      var a0 :| AreHextets(high, a0) && r.value == Assemble(0, a0);
      forall a | AreHextets(high, a) ensures a == a0 { HextetsOnce(high, a, a0); }
      ShiftGroups(r.value, l.skipped);
      ReadExact(ShiftLeft(r.value, 16 * l.skipped), low, v);
      forall b ensures Assemble(ShiftLeft(r.value, 16 * l.skipped), b) == Assemble(0, a0 + Zeros(l.skipped) + b) {
        AssembleAppend(0, a0, Zeros(l.skipped));
        AssembleAppend(0, a0 + Zeros(l.skipped), b);
      }
    } else {
      forall a ensures !AreHextets(high, a) { ReadExact(0, high, Assemble(0, a)); }
    }
  }

  lemma HextetsOnce(parts: seq<string>, a: seq<nat>, b: seq<nat>)
    requires AreHextets(parts, a) && AreHextets(parts, b)
    ensures a == b
  {
    forall i | 0 <= i < |a| ensures a[i] == b[i] { assert IsHextet(parts[i], a[i]) && IsHextet(parts[i], b[i]); }
  }

  lemma PlainParts(q: seq<string>, n: nat)
    requires 3 <= |q| && forall k :: 1 <= k < |q| - 1 ==> q[k] != ""
    ensures ReadParts(q) == Ok(n) <==> exists g :: |g| == 8 && AreHextets(q, g) && n == Assemble(0, g)
  {
    NoElision(q, 1, None);
    hide FindElision, ReadLayout, IsHextet, Assemble;
    if |q| == 8 {
      NonEmptyEnds(q);
      EightRead(q, n);
    }
  }

  lemma EightRead(q: seq<string>, n: nat)
    requires |q| == 8
    ensures ReadLayout(q, Layout(8, 0, 0)) == Ok(n) <==> exists g :: AreHextets(q, g) && n == Assemble(0, g)
  {
    hide ReadLayout, IsHextet, Assemble;
    LayoutReadsExact(q, Layout(8, 0, 0), n);
    assert q[..8] == q && q[8..] == [] && AreHextets([], []);
    forall a: seq<nat>, b: seq<nat> | b == [] ensures a + Zeros(0) + b == a {}
    if g :| AreHextets(q, g) && n == Assemble(0, g) { assert g + Zeros(0) + [] == g; }
  }

  lemma NonEmptyEnds(q: seq<string>)
    requires |q| > 0
    ensures forall g :: AreHextets(q, g) ==> q[0] != "" && q[|q| - 1] != ""
  {
    forall g | AreHextets(q, g) ensures q[0] != "" && q[|q| - 1] != "" {
      assert IsHextet(q[0], g[0]) && IsHextet(q[|q| - 1], g[|q| - 1]);
    }
  }

  /** Where the sides of a double colon are. */
  lemma SidesOf(q: seq<string>, high: seq<string>, a: seq<nat>, low: seq<string>, b: seq<nat>)
    requires ElidedParts(q, high, a, low, b)
    ensures var at := |Pad(high)|;
      && 3 <= |q| <= 9 && OnlyEmpty(q, 1, at)
      && q[..|high|] == high && q[|q| - |low|..] == low && |a| == |high| && |b| == |low|
      && (if q[0] == "" then |high| == 0 && at == 1 else |high| == at)
      && |q| == at + 1 + |low| + (if q[|q| - 1] == "" then 1 else 0) && (q[|q| - 1] == "" ==> |low| == 0)
  {
    forall i | 0 <= i < |high| ensures high[i] != "" { assert IsHextet(high[i], a[i]); }
    forall i | 0 <= i < |low| ensures low[i] != "" { assert IsHextet(low[i], b[i]); }
    hide IsHextet;
    SidesShape(q, high, low);
  }

  lemma SidesShape(q: seq<string>, high: seq<string>, low: seq<string>)
    requires q == Pad(high) + [""] + Pad(low)
    requires (forall i :: 0 <= i < |high| ==> high[i] != "") && forall i :: 0 <= i < |low| ==> low[i] != ""
    ensures var at := |Pad(high)|;
      && OnlyEmpty(q, 1, at) && q[..|high|] == high && q[|q| - |low|..] == low
      && (if q[0] == "" then |high| == 0 && at == 1 else |high| == at)
      && |q| == at + 1 + |low| + (if q[|q| - 1] == "" then 1 else 0) && (q[|q| - 1] == "" ==> |low| == 0)
  {
    var x, y := Pad(high), Pad(low);
    var at := |x|;
    assert q[..at] == x && q[at + 1..] == y && q[at] == "";
    assert q[0] == x[0] && q[|q| - 1] == y[|y| - 1];
    forall k | 1 <= k < |q| - 1 && k != at ensures q[k] != "" {
      if k < at { assert q[k] == x[k]; } else { assert q[k] == y[k - at - 1]; }
    }
  }

  lemma ElidedAccepted(q: seq<string>, high: seq<string>, a: seq<nat>, low: seq<string>, b: seq<nat>)
    requires ElidedParts(q, high, a, low, b)
    ensures |q| >= 3 && ReadParts(q) == Ok(Filled(a, b))
  {
    SidesOf(q, high, a, low, b);
    var at, l := |Pad(high)|, Layout(|high|, |low|, 8 - |high| - |low|);
    OneElision(q, 1, at);
    LayoutFound(q, at, l);
    LaidOut(q, at, l);
    hide *;
    LayoutReadsTo(q, l, a, b);
    FilledIs(a, b, l.skipped);
  }

  lemma LaidOut(q: seq<string>, at: nat, l: Layout)
    requires 3 <= |q| <= 9 && 0 < at < |q| - 1 && FindElision(q, 1, None) == Ok(Some(at)) && FindLayout(q, Some(at)) == Ok(l)
    ensures l.hi <= |q| && l.lo <= |q| && ReadParts(q) == ReadLayout(q, l)
  {
    hide FindElision, ReadLayout;
  }

  lemma FilledIs(a: seq<nat>, b: seq<nat>, zeros: nat)
    requires |a| + |b| + zeros == 8
    ensures Filled(a, b) == Assemble(0, a + Zeros(zeros) + b)
  {
  }

  lemma LayoutReadsTo(q: seq<string>, l: Layout, a: seq<nat>, b: seq<nat>)
    requires l.hi <= |q| && l.lo <= |q| && l.hi + l.lo + l.skipped == 8
    requires AreHextets(q[..l.hi], a) && AreHextets(q[|q| - l.lo..], b)
    ensures ReadLayout(q, l) == Ok(Assemble(0, a + Zeros(l.skipped) + b))
  {
    hide ReadLayout, AreHextets, Assemble;
    LayoutReadsExact(q, l, Assemble(0, a + Zeros(l.skipped) + b));
  }

  /** The sides found around the one empty part. */
  lemma SidesFound(q: seq<string>, at: nat, l: Layout) returns (high: seq<string>, low: seq<string>)
    requires 3 <= |q| && OnlyEmpty(q, 1, at) && FindLayout(q, Some(at)) == Ok(l)
    ensures l.hi <= |q| && l.lo <= |q| && l.hi + l.lo <= 7 && l.skipped == 8 - l.hi - l.lo
    ensures high == q[..l.hi] && low == q[|q| - l.lo..] && q == Pad(high) + [""] + Pad(low)
  {
    high, low := q[..l.hi], q[|q| - l.lo..];
    assert q[..at] == Pad(high) by { if q[0] == "" { assert q[..1] == [""]; } }
    assert q[at + 1..] == Pad(low) by { if q[|q| - 1] == "" { assert q[at + 1..] == [""]; } }
    assert q == q[..at] + [q[at]] + q[at + 1..];
  }

  lemma AcceptedElided(q: seq<string>, n: nat, at: nat) returns (high: seq<string>, a: seq<nat>, low: seq<string>, b: seq<nat>)
    requires 3 <= |q| && OnlyEmpty(q, 1, at) && ReadParts(q) == Ok(n)
    ensures ElidedParts(q, high, a, low, b) && n == Filled(a, b)
  {
    OneElision(q, 1, at);
    var l := LayoutOf(q, n, at);
    high, low := SidesFound(q, at, l);
    hide FindElision, FindLayout, ReadLayout, AreHextets, Assemble, Pad, Filled;
    LayoutReadsExact(q, l, n);
    a, b :| AreHextets(q[..l.hi], a) && AreHextets(q[|q| - l.lo..], b) && n == Assemble(0, a + Zeros(l.skipped) + b);
    HextetCount(high, a);
    HextetCount(low, b);
    FilledIs(a, b, l.skipped);
  }

  lemma HextetCount(parts: seq<string>, g: seq<nat>)
    requires AreHextets(parts, g)
    ensures |g| == |parts|
  {
  }

  lemma LayoutOf(q: seq<string>, n: nat, at: nat) returns (l: Layout)
    requires 3 <= |q| && 0 < at < |q| - 1 && FindElision(q, 1, None) == Ok(Some(at)) && ReadParts(q) == Ok(n)
    ensures FindLayout(q, Some(at)) == Ok(l)
    ensures l.hi <= |q| && l.lo <= |q| && ReadLayout(q, l) == Ok(n)
  {
    hide FindElision, ReadLayout;
    l := FindLayout(q, Some(at)).value;
  }

  /** The parts that are read: eight hextets, or at most seven around one double colon. */
  lemma PartsExact(q: seq<string>, n: nat)
    requires |q| >= 3
    ensures ReadParts(q) == Ok(n) <==>
      || (exists g :: |g| == 8 && AreHextets(q, g) && n == Assemble(0, g))
      || exists high, a, low, b :: ElidedParts(q, high, a, low, b) && n == Filled(a, b)
  {
    if ReadParts(q) == Ok(n) {
      ElisionFound(q, 1, None);
      var found := FindElision(q, 1, None).value;
      hide ReadParts, AreHextets, ElidedParts, Filled, Assemble, FindElision;
      if found.None? { PlainParts(q, n); } else { var high, a, low, b := AcceptedElided(q, n, found.value); }
    }
    hide ReadParts, ElidedParts, Filled, Assemble;
    if g :| |g| == 8 && AreHextets(q, g) && n == Assemble(0, g) {
      forall k | 0 <= k < |q| ensures q[k] != "" { assert IsHextet(q[k], g[k]); }
      PlainParts(q, n);
    }
    if high, a, low, b :| ElidedParts(q, high, a, low, b) && n == Filled(a, b) { ElidedAccepted(q, high, a, low, b); }
  }

  // ----- texts -----

  ghost predicate NoColon(parts: seq<string>) {
    forall i :: 0 <= i < |parts| ==> ':' !in parts[i]
  }

  lemma DenotedNoColon(parts: seq<string>, g: seq<nat>)
    requires Denotes(parts, g)
    ensures NoColon(parts)
  {
    var n := |parts| - 1;
    hide IsQuad, IsHextet;
    forall i | 0 <= i < |parts| ensures ':' !in parts[i] {
      if AreHextets(parts, g) {
        HextetFacts(parts[i], g[i]);
      } else if i < n {
        assert IsHextet(parts[..n][i], g[..|g| - 2][i]);
        HextetFacts(parts[i], g[i]);
      } else {
        QuadDotted(parts[n], g[|g| - 2] * RADIX + g[|g| - 1]);
      }
    }
  }

  /** Splitting a joined list gives it back, padded. */
  lemma SplitPadded(parts: seq<string>)
    requires NoColon(parts)
    ensures Split(Join(parts, ':'), ':') == Pad(parts)
  {
    if parts != [] { SplitJoin(parts, ':'); }
  }

  /** The parts of a text with a double colon. */
  lemma SplitElided(high: seq<string>, low: seq<string>)
    requires NoColon(high) && NoColon(low)
    ensures Split(Join(high, ':') + "::" + Join(low, ':'), ':') == Pad(high) + [""] + Pad(low)
  {
    hide Split, Join, Pad;
    SplitDouble(Join(high, ':'), Join(low, ':'));
    SplitPadded(high);
    SplitPadded(low);
  }

  lemma SplitDouble(h: string, l: string)
    ensures Split(h + "::" + l, ':') == Split(h, ':') + [""] + Split(l, ':')
  {
    assert Split("", ':') == [""];
    hide Split;
    assert h + "::" + l == h + [':'] + ("" + [':'] + l);
    SplitTwo(h, "" + [':'] + l, ':');
    SplitTwo("", l, ':');
    assert Split(h, ':') + ([""] + Split(l, ':')) == Split(h, ':') + [""] + Split(l, ':');
  }

  /** The double colon of a text, from its parts. */
  lemma JoinElided(text: string, high: seq<string>, low: seq<string>)
    requires Split(text, ':') == Pad(high) + [""] + Pad(low) && NoColon(high) && NoColon(low)
    ensures text == Join(high, ':') + "::" + Join(low, ':')
  {
    SplitElided(high, low);
    JoinSplit(text, ':');
    JoinSplit(Join(high, ':') + "::" + Join(low, ':'), ':');
    hide Split, Join, Pad;
  }

  lemma SplitNoColon(text: string)
    ensures NoColon(Split(text, ':'))
  {
    SplitParts(text, ':');
    hide Split;
    forall i | 0 <= i < |Split(text, ':')| ensures ':' !in Split(text, ':')[i] { assert Split(text, ':')[i] in Split(text, ':'); }
  }

  /** A dotted tail behind the double colon, if there is one. */
  lemma TailUndotted(high: seq<string>, low: seq<string>, lowQ: seq<string>, q: seq<string>)
    requires Undotted(low, lowQ) && q == Pad(high) + [""] + Pad(lowQ)
    ensures Undotted(Pad(high) + [""] + Pad(low), q)
  {
    hide IsQuad, HexText;
    var parts := Pad(high) + [""] + Pad(low);
    if low != [] {
      assert parts[|parts| - 1] == low[|low| - 1];
      assert parts[..|parts| - 1] == Pad(high) + [""] + low[..|low| - 1];
      if '.' in low[|low| - 1] {
        var v: nat :| IsQuad(low[|low| - 1], v) && lowQ == low[..|low| - 1] + [HexText(v / RADIX), HexText(v % RADIX)];
        assert q == parts[..|parts| - 1] + [HexText(v / RADIX), HexText(v % RADIX)];
      }
    }
  }

  lemma ToUndotted(parts: seq<string>, g: seq<nat>) returns (q: seq<string>)
    requires Denotes(parts, g)
    ensures Undotted(parts, q) && AreHextets(q, g)
  {
    var n := |parts| - 1;
    hide IsQuad, HexText, IsHextet;
    q := parts;
    if AreHextets(parts, g) {
      if parts != [] && '.' in parts[n] { NoHextet(parts, g); }
    } else {
      var v := g[|g| - 2] * RADIX + g[|g| - 1];
      QuadDotted(parts[n], v);
      q := parts[..n] + [HexText(v / RADIX), HexText(v % RADIX)];
      DottedToHex(parts, v, q, g);
    }
  }

  lemma Parses(text: string, parts: seq<string>, q: seq<string>)
    requires parts == Split(text, ':') && |parts| >= 3 && Undotted(parts, q)
    ensures |q| >= 3 && ParseV6(text) == ReadParts(q)
  {
    ReplacedIs(parts, q);
    assert Split("", ':') == [""];
    hide Split, ReadParts, ParseV4, IsQuad, HexText;
  }

  lemma PlainAddress(parts: seq<string>, g: seq<nat>)
    requires Denotes(parts, g) && |g| == 8
    ensures ParseV6(Join(parts, ':')) == Ok(Assemble(0, g))
  {
    var q := ToUndotted(parts, g);
    DenotedNoColon(parts, g);
    SplitPadded(parts);
    hide Undotted, AreHextets, Join, Split, ParseV6, ReadParts, Assemble, NoColon;
    Parses(Join(parts, ':'), parts, q);
    PartsExact(q, Assemble(0, g));
  }

  lemma ElidedAddress(text: string, high: seq<string>, a: seq<nat>, low: seq<string>, b: seq<nat>)
    requires Elided(text, high, a, low, b)
    ensures ParseV6(text) == Ok(Filled(a, b))
  {
    var lowQ := ToUndotted(low, b);
    var q := Pad(high) + [""] + Pad(lowQ);
    DenotedNoColon(high, a);
    DenotedNoColon(low, b);
    hide Undotted, AreHextets, Join, Split, ParseV6, ReadParts, Filled, NoColon, Denotes;
    SplitElided(high, low);
    TailUndotted(high, low, lowQ, q);
    Parses(text, Pad(high) + [""] + Pad(low), q);
    ElidedAccepted(q, high, a, lowQ, b);
  }

  /** The parts behind the double colon, as they were before a dotted tail was replaced. */
  lemma TailFound(parts: seq<string>, q: seq<string>, high: seq<string>, a: seq<nat>, lowQ: seq<string>, b: seq<nat>)
    returns (low: seq<string>)
    requires parts != [] && Undotted(parts, q) && ElidedParts(q, high, a, lowQ, b)
    ensures parts == Pad(high) + [""] + Pad(low) && Undotted(low, lowQ)
  {
    hide IsQuad, HexText, AreHextets, Pad;
    if '.' in parts[|parts| - 1] {
      low := DottedFound(parts, q, high, lowQ);
    } else {
      low := lowQ;
      LastOfPadded(high, lowQ);
    }
  }

  lemma LastOfPadded(high: seq<string>, low: seq<string>)
    ensures var q := Pad(high) + [""] + Pad(low); low != [] ==> q[|q| - 1] == low[|low| - 1]
  {
  }

  lemma DottedFound(parts: seq<string>, q: seq<string>, high: seq<string>, lowQ: seq<string>) returns (low: seq<string>)
    requires parts != [] && '.' in parts[|parts| - 1] && Undotted(parts, q) && q == Pad(high) + [""] + Pad(lowQ)
    ensures parts == Pad(high) + [""] + Pad(low) && Undotted(low, lowQ)
  {
    hide IsQuad, HexText, Pad;
    var n := |parts| - 1;
    var v: nat :| IsQuad(parts[n], v) && q == parts[..n] + [HexText(v / RADIX), HexText(v % RADIX)];
    HexRoundTrip(v / RADIX);
    HexRoundTrip(v % RADIX);
    low := DottedTail(parts, q, high, lowQ);
    assert lowQ == low[..|low| - 1] + [HexText(v / RADIX), HexText(v % RADIX)];
  }

  lemma DottedTail(parts: seq<string>, q: seq<string>, high: seq<string>, lowQ: seq<string>) returns (low: seq<string>)
    requires parts != [] && |q| == |parts| + 1 && parts[..|parts| - 1] == q[..|q| - 2]
    requires q[|q| - 1] != "" && q[|q| - 2] != "" && q == Pad(high) + [""] + Pad(lowQ)
    ensures |lowQ| >= 2 && low == lowQ[..|lowQ| - 2] + [parts[|parts| - 1]]
    ensures q[|q| - 2] == lowQ[|lowQ| - 2] && q[|q| - 1] == lowQ[|lowQ| - 1]
    ensures parts == Pad(high) + [""] + Pad(low)
  {
    assert q[|q| - 1] == Pad(lowQ)[|Pad(lowQ)| - 1];
    assert |lowQ| >= 2;
    low := lowQ[..|lowQ| - 2] + [parts[|parts| - 1]];
    assert q[..|q| - 2] == Pad(high) + [""] + lowQ[..|lowQ| - 2];
    assert parts == parts[..|parts| - 1] + [parts[|parts| - 1]];
  }

  /** The parser accepts exactly the addresses, each for the number it denotes. */
  lemma V6Exact(text: string, n: nat)
    ensures ParseV6(text) == Ok(n) <==> IsAddress(text, n)
  {
    if ParseV6(text) == Ok(n) { Denoted(text, n); }
    hide ParseV6, Assemble, Denotes, Elided, Join;
    if parts, g :| Denotes(parts, g) && |g| == 8 && text == Join(parts, ':') && n == Assemble(0, g) { PlainAddress(parts, g); }
    if high, a, low, b :| Elided(text, high, a, low, b) && n == Assemble(0, a + Zeros(8 - |a| - |b|) + b) {
      ElidedAddress(text, high, a, low, b);
    }
  }

  lemma Denoted(text: string, n: nat)
    requires ParseV6(text) == Ok(n)
    ensures IsAddress(text, n)
  {
    var parts := Split(text, ':');
    var q := UndottedOf(text, n);
    SplitNoColon(text);
    JoinSplit(text, ':');
    hide Undotted, AreHextets, Join, Split, ParseV6, ReadParts, Assemble, ElidedParts, Denotes, NoColon;
    PartsExact(q, n);
    if g :| |g| == 8 && AreHextets(q, g) && n == Assemble(0, g) {
      UndottedDenotes(parts, q, g);
    } else {
      var high, a, lowQ, b :| ElidedParts(q, high, a, lowQ, b) && n == Filled(a, b);
      var low := TailFound(parts, q, high, a, lowQ, b);
      ElidedFrom(text, parts, q, high, a, low, lowQ, b);
    }
  }

  lemma UndottedOf(text: string, n: nat) returns (q: seq<string>)
    requires ParseV6(text) == Ok(n)
    ensures var parts := Split(text, ':');
      |parts| >= 3 && Undotted(parts, q) && |q| >= 3 && ReadParts(q) == Ok(n)
  {
    var parts := Split(text, ':');
    q := ReplaceDotted(parts).value;
    ReplacedIs(parts, q);
    hide Split, ReadParts, ParseV4, IsQuad, HexText;
  }

  lemma ElidedFrom(text: string, parts: seq<string>, q: seq<string>, high: seq<string>, a: seq<nat>, low: seq<string>, lowQ: seq<string>, b: seq<nat>)
    requires parts == Split(text, ':') && NoColon(parts) && parts == Pad(high) + [""] + Pad(low)
    requires Undotted(low, lowQ) && ElidedParts(q, high, a, lowQ, b)
    ensures Elided(text, high, a, low, b)
  {
    UndottedDenotes(low, lowQ, b);
    assert Denotes(high, a);
    hide Undotted, AreHextets, Join, Split, Denotes;
    PaddedNoColon(high, low);
    JoinElided(text, high, low);
  }

  lemma PaddedNoColon(high: seq<string>, low: seq<string>)
    requires NoColon(Pad(high) + [""] + Pad(low))
    ensures NoColon(high) && NoColon(low)
  {
    var parts, at := Pad(high) + [""] + Pad(low), |Pad(high)|;
    forall i | 0 <= i < |high| ensures ':' !in high[i] { assert high[i] == parts[i]; }
    forall i | 0 <= i < |low| ensures ':' !in low[i] { assert low[i] == parts[at + 1 + i]; }
  }
}
