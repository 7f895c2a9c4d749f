/** Address text: the IPv6 printer with its run compression, the IPv6 parser with its
    embedded IPv4 form, and the round trips between them. */
module AddressText {
  import opened Bits
  import opened Results
  import opened Strings

  datatype TextError =
    | EmptyText | TooFewParts | TooManyParts | TwoElisions | LeadingColon | TrailingColon
    | NothingElided | WrongPartCount | BadHextet | BadOctets | TooLarge

  // ----- digits -----

  function HexDigit(d: nat): char
    requires d < 16
  {
    if d < 10 then '0' + d as char else 'a' + (d - 10) as char
  }

  /** `'%x' % n` */
  function HexText(n: nat): string {
    if n < 16 then [HexDigit(n)] else HexText(n / 16) + [HexDigit(n % 16)]
  }

  /** `int(s, 16)` on hex digits */
  function HexNumber(s: string): nat
    requires forall c :: c in s ==> IsHexDigit(c)
  {
    if s == "" then 0
    else
      assert forall c :: c in s[..|s| - 1] ==> c in s;
      16 * HexNumber(s[..|s| - 1]) + HexDigitValue(s[|s| - 1])
  }

  lemma HexDigitRoundTrip(d: nat)
    requires d < 16
    ensures IsHexDigit(HexDigit(d)) && HexDigitValue(HexDigit(d)) == d && HexDigit(d) != ':' && HexDigit(d) != '.'
  {
  }

  lemma {:induction false} HexRoundTrip(n: nat)
    ensures HexText(n) != "" && (forall c :: c in HexText(n) ==> IsHexDigit(c) && c != ':' && c != '.')
    ensures HexNumber(HexText(n)) == n
  {
    HexDigitRoundTrip(n % 16);
    if n >= 16 {
      HexRoundTrip(n / 16);
      var s := HexText(n);
      assert s[..|s| - 1] == HexText(n / 16);
    } else {
      assert [HexDigit(n)][..0] == "";
    }
  }

  lemma Pow2Add4(n: nat)
    ensures Pow2(n + 4) == 16 * Pow2(n)
  {
    assert Pow2(n + 1) == 2 * Pow2(n) && Pow2(n + 2) == 2 * Pow2(n + 1) && Pow2(n + 3) == 2 * Pow2(n + 2);
  }

  lemma Pow2Add16(n: nat)
    ensures Pow2(n + 16) == RADIX * Pow2(n)
  {
    Pow2Add4(n);
    Pow2Add4(n + 4);
    Pow2Add4(n + 8);
    Pow2Add4(n + 12);
  }

  /** A number below 16^k prints in at most k digits. */
  lemma {:induction false} HexLength(n: nat, k: nat)
    requires k > 0 && n < Pow2(4 * k)
    ensures |HexText(n)| <= k
  {
    if n >= 16 {
      Pow2Add4(4 * (k - 1));
      HexLength(n / 16, k - 1);
    }
  }

  // ----- groups of sixteen bits -----

  const RADIX := 65536

  ghost predicate AreGroups(g: seq<nat>) {
    forall i :: 0 <= i < |g| ==> g[i] < RADIX
  }

  /** The `k` lowest groups of `n`, highest first. */
  function Groups(n: nat, k: nat): (g: seq<nat>)
    ensures |g| == k && AreGroups(g)
  {
    if k == 0 then [] else Groups(n / RADIX, k - 1) + [n % RADIX]
  }

  /** The number whose groups, after those of `acc`, are `g`. */
  function Assemble(acc: nat, g: seq<nat>): nat
    decreases |g|
  {
    if g == [] then acc else Assemble(acc * RADIX + g[0], g[1..])
  }

  lemma {:induction false} AssembleAppend(acc: nat, g: seq<nat>, h: seq<nat>)
    ensures Assemble(acc, g + h) == Assemble(Assemble(acc, g), h)
    decreases |g|
  {
    if g == [] {
      assert g + h == h;
    } else {
      AssembleAppend(acc * RADIX + g[0], g[1..], h);
      assert (g + h)[1..] == g[1..] + h;
    }
  }

  lemma {:induction false} GroupsAssemble(n: nat, k: nat)
    requires n < Pow2(16 * k)
    ensures Assemble(0, Groups(n, k)) == n
  {
    if k > 0 {
      Pow2Add16(16 * (k - 1));
      GroupsAssemble(n / RADIX, k - 1);
      AssembleAppend(0, Groups(n / RADIX, k - 1), [n % RADIX]);
      assert [n % RADIX][1..] == [];
    }
  }

  lemma Pow16()
    ensures Pow2(16) == RADIX
  {
    Pow2Add16(0);
  }

  function Zeros(k: nat): (z: seq<nat>)
    ensures |z| == k && forall x :: x in z ==> x == 0
  {
    if k == 0 then [] else [0] + Zeros(k - 1)
  }

  /** Shifting by whole groups appends zero groups. */
  lemma {:induction false} ShiftGroups(acc: nat, k: nat)
    ensures ShiftLeft(acc, 16 * k) == Assemble(acc, Zeros(k))
    decreases k
  {
    if k > 0 {
      ShiftGroups(acc * RADIX, k - 1);
      assert ([0] + Zeros(k - 1))[1..] == Zeros(k - 1);
      Pow2Add16(16 * (k - 1));
      MulAssoc(acc, RADIX, Pow2(16 * (k - 1)));
    }
  }

  lemma MulAssoc(x: nat, y: nat, z: nat)
    ensures x * (y * z) == (x * y) * z
  {
  }

  /** `acc << 16 | g` appends one group. */
  lemma ShiftOr(acc: nat, g: nat)
    requires g < RADIX
    ensures Or(ShiftLeft(acc, 16), g) == acc * RADIX + g
  {
    Pow16();
    ShiftLeftAligned(acc, 16);
    OrDisjoint(ShiftLeft(acc, 16), g, 16);
  }

  // ----- printing -----

  /** `'%032x' % n`, for a number of at most 32 digits. */
  function PaddedHex(n: nat): string
    requires |HexText(n)| <= 32
  {
    seq(32 - |HexText(n)|, _ => '0') + HexText(n)
  }

  /** The `k` lowest hex digits of `n`. */
  function Digits(n: nat, k: nat): (s: string)
    ensures |s| == k
  {
    if k == 0 then "" else Digits(n / 16, k - 1) + [HexDigit(n % 16)]
  }

  lemma {:induction false} DigitsPad(n: nat, k: nat)
    requires |HexText(n)| <= k
    ensures Digits(n, k) == seq(k - |HexText(n)|, _ => '0') + HexText(n)
  {
    if n < 16 {
      ZeroDigits(k - 1);
      assert n / 16 == 0;
      assert seq(k - 1, _ => '0') + [HexDigit(n)] == seq(k - |HexText(n)|, _ => '0') + HexText(n);
    } else {
      DigitsPad(n / 16, k - 1);
      assert k - 1 - |HexText(n / 16)| == k - |HexText(n)|;
    }
  }

  lemma {:induction false} ZeroDigits(k: nat)
    ensures Digits(0, k) == seq(k, _ => '0')
  {
    if k > 0 { ZeroDigits(k - 1); }
  }

  lemma {:induction false} DigitsNumber(n: nat, k: nat)
    requires n < Pow2(4 * k)
    ensures (forall c :: c in Digits(n, k) ==> IsHexDigit(c)) && HexNumber(Digits(n, k)) == n
  {
    if k > 0 {
      Pow2Add4(4 * (k - 1));
      DigitsNumber(n / 16, k - 1);
      HexDigitRoundTrip(n % 16);
      var s := Digits(n, k);
      assert s[..k - 1] == Digits(n / 16, k - 1);
    }
  }

  /** The last four digits are those of the last group. */
  lemma LastFourDigits(n: nat, j: nat)
    ensures Digits(n, j + 4) == Digits(n / RADIX, j) + Digits(n % RADIX, 4)
  {
    FourSteps(n, j);
    FourSteps(n % RADIX, 0);
    hide Digits;
    QuadDivide(n);
    assert Digits(0, 0) == "" by { EmptyDigits(); }
  }

  lemma EmptyDigits()
    ensures Digits(0, 0) == ""
  {
  }

  lemma QuadDivide(n: nat)
    ensures n / 16 / 16 / 16 / 16 == n / RADIX && n % RADIX / 16 / 16 / 16 / 16 == 0
    ensures n % RADIX / 16 / 16 / 16 % 16 == n / 16 / 16 / 16 % 16
    ensures n % RADIX / 16 / 16 % 16 == n / 16 / 16 % 16
    ensures n % RADIX / 16 % 16 == n / 16 % 16
    ensures n % RADIX % 16 == n % 16
  {
    var q, m := n / RADIX, n % RADIX;
    DivideTwice(n, q, m, 4096);
    DivideTwice(n / 16, q, m / 16, 256);
    DivideTwice(n / 16 / 16, q, m / 16 / 16, 16);
    DivideTwice(n / 16 / 16 / 16, q, m / 16 / 16 / 16, 1);
  }

  lemma FourSteps(n: nat, j: nat)
    ensures Digits(n, j + 4) == Digits(n / 16 / 16 / 16 / 16, j)
      + [HexDigit(n / 16 / 16 / 16 % 16), HexDigit(n / 16 / 16 % 16), HexDigit(n / 16 % 16), HexDigit(n % 16)]
  {
    var n1 := n / 16;
    var n2 := n1 / 16;
    var n3 := n2 / 16;
    assert Digits(n, j + 4) == Digits(n1, j + 3) + [HexDigit(n % 16)];
    assert Digits(n1, j + 3) == Digits(n2, j + 2) + [HexDigit(n1 % 16)];
    assert Digits(n2, j + 2) == Digits(n3, j + 1) + [HexDigit(n2 % 16)];
    assert Digits(n3, j + 1) == Digits(n3 / 16, j) + [HexDigit(n3 % 16)];
  }

  lemma DivideTwice(n: nat, q: nat, m: nat, r: nat)
    requires n == 16 * (r * q) + m && r > 0
    ensures n / 16 == r * q + m / 16 && n % 16 == m % 16
  {
  }

  /** Cutting the 32 digits every four and reading each piece gives the eight groups. */
  lemma {:induction false} PiecesAreGroups(n: nat, k: nat, i: nat)
    requires i < k
    ensures (forall c :: c in Digits(n, 4 * k)[4 * i..4 * i + 4] ==> IsHexDigit(c))
    ensures HexNumber(Digits(n, 4 * k)[4 * i..4 * i + 4]) == Groups(n, k)[i]
    decreases k
  {
    hide Digits, HexNumber, Pow2, IsHexDigit;
    var s := Digits(n, 4 * k);
    Pow16();
    assert 4 * (k - 1) + 4 == 4 * k;
    LastFourDigits(n, 4 * (k - 1));
    assert s == Digits(n / RADIX, 4 * (k - 1)) + Digits(n % RADIX, 4);
    if i == k - 1 {
      DigitsNumber(n % RADIX, 4);
      assert s[4 * i..4 * i + 4] == Digits(n % RADIX, 4);
    } else {
      PiecesAreGroups(n / RADIX, k - 1, i);
      assert s[4 * i..4 * i + 4] == Digits(n / RADIX, 4 * (k - 1))[4 * i..4 * i + 4];
    }
  }

  function Texts(g: seq<nat>): (t: seq<string>)
    ensures |t| == |g| && forall i :: 0 <= i < |g| ==> t[i] == HexText(g[i])
  {
    seq(|g|, i requires 0 <= i < |g| => HexText(g[i]))
  }

  /** [start, start + len) is a run of "0" texts. */
  ghost predicate ZeroRun(h: seq<string>, start: int, len: int) {
    0 <= start && 0 <= len && start + len <= |h| && forall i :: start <= i < start + len ==> h[i] == "0"
  }

  /** The leftmost of the longest runs of zeros. */
  ghost predicate LeftmostLongest(h: seq<string>, start: int, len: int) {
    && ZeroRun(h, start, len)
    && (forall s, l :: ZeroRun(h, s, l) ==> l <= len)
    && (forall s :: ZeroRun(h, s, len) ==> start <= s)
  }

  /** `h` with the run [start, start + len) replaced by one empty text, and a further
      empty text at an end that the run touches. */
  function Elide(h: seq<string>, start: nat, len: nat): seq<string>
    requires start + len <= |h|
  {
    (if start == 0 then [""] else []) + h[..start] + [""] + h[start + len..]
      + (if start + len == |h| then [""] else [])
  }

  /** What compression yields: the list itself when no two neighbours are zero,
      else the list with its leftmost longest run of zeros elided. */
  ghost predicate Compressed(h: seq<string>, c: seq<string>) {
    if forall s, l :: ZeroRun(h, s, l) ==> l < 2 then c == h
    else exists start: nat, len: nat :: len >= 2 && LeftmostLongest(h, start, len) && c == Elide(h, start, len)
  }

  lemma CompressedUnique(h: seq<string>, c: seq<string>, d: seq<string>)
    requires Compressed(h, c) && Compressed(h, d)
    ensures c == d
  {
    if !(forall s, l :: ZeroRun(h, s, l) ==> l < 2) {
      var s1: nat, l1: nat :| l1 >= 2 && LeftmostLongest(h, s1, l1) && c == Elide(h, s1, l1);
      var s2: nat, l2: nat :| l2 >= 2 && LeftmostLongest(h, s2, l2) && d == Elide(h, s2, l2);
      assert ZeroRun(h, s1, l1) && ZeroRun(h, s2, l2);
      assert l1 == l2;
      assert ZeroRun(h, s1, l2) && ZeroRun(h, s2, l1);
      assert s1 == s2;
    }
  }

  method CompressHextets(hextets: seq<string>) returns (c: seq<string>)
    ensures Compressed(hextets, c)
  {
    var bestStart, bestLen, start, len := -1, 0, -1, 0;
    for index := 0 to |hextets|
      invariant 0 <= len <= index
      invariant if len == 0 then start == -1 else start == index - len
      invariant ZeroRun(hextets, index - len, len)
      invariant len < index ==> hextets[index - len - 1] != "0"
      invariant len <= bestLen
      invariant bestLen == 0 <==> bestStart == -1
      invariant bestLen > 0 ==> ZeroRun(hextets, bestStart, bestLen) && bestStart + bestLen <= index
      invariant forall s, l :: ZeroRun(hextets, s, l) && s + l <= index ==>
        l <= bestLen && (l == bestLen > 0 ==> bestStart <= s)
    {
      ghost var len0 := len;
      if hextets[index] == "0" {
        len := len + 1;
        if start == -1 {
          start := index;
        }
        if len > bestLen {
          bestLen := len;
          bestStart := start;
        }
      } else {
        len := 0;
        start := -1;
      }
      forall s, l | ZeroRun(hextets, s, l) && s + l == index + 1 && l > 0
        ensures l <= len
      {
        assert hextets[index] == "0";
      }
    }
    c := hextets;
    if bestLen > 1 {
      var bestEnd := bestStart + bestLen;
      assert LeftmostLongest(hextets, bestStart, bestLen);
      if bestEnd == |hextets| {
        c := c + [""];
      }
      c := c[..bestStart] + [""] + c[bestEnd..];
      if bestStart == 0 {
        c := [""] + c;
      }
      assert c == Elide(hextets, bestStart, bestLen);
      assert ZeroRun(hextets, bestStart, bestLen);
    }
  }

  /** The printer: eight groups from the padded hex text, compressed and joined. */
  method StringFromInt(n: nat) returns (r: Result<string, TextError>)
    ensures n >= Pow2(128) <==> r == Err(TooLarge)
    ensures r.Ok? ==> exists c :: Compressed(Texts(Groups(n, 8)), c) && r.value == Join(c, ':')
    ensures r.Err? ==> r == Err(TooLarge)
    ensures r.Ok? ==> ParseV6(r.value) == Ok(n)
  {
    hide ParseV6, Pow2, HexText, HexNumber, Digits, Groups, Compressed, Join;
    if n > Pow2(128) - 1 {
      return Err(TooLarge);
    }
    HexLength(n, 32);
    DigitsPad(n, 32);
    var hex := PaddedHex(n);
    var hextets: seq<string> := [];
    for i := 0 to 8
      invariant |hextets| == i && forall j :: 0 <= j < i ==> hextets[j] == Texts(Groups(n, 8))[j]
    {
      PiecesAreGroups(n, 8, i);
      hextets := hextets + [HexText(HexNumber(hex[4 * i..4 * i + 4]))];
    }
    assert hextets == Texts(Groups(n, 8));
    var c := CompressHextets(hextets);
    V6RoundTrip(n, c);
    r := Ok(Join(c, ':'));
  }

  // ----- parsing -----

  function ParseHextet(s: string): Result<nat, TextError> {
    if !(forall c :: c in s ==> IsHexDigit(c)) then Err(BadHextet)
    else if |s| > 4 then Err(BadHextet)
    else if s == "" then Err(BadHextet)
    else Ok(HexNumber(s))
  }

  /** Read hextets one after another onto `acc`. */
  function ReadGroups(acc: nat, parts: seq<string>): Result<nat, TextError>
    decreases |parts|
  {
    if parts == [] then Ok(acc)
    else
      match ParseHextet(parts[0])
      case Err(e) => Err(e)
      case Ok(g) => ReadGroups(Or(ShiftLeft(acc, 16), g), parts[1..])
  }

  /** The index of the one empty interior part, from `i` on. */
  function FindElision(parts: seq<string>, i: nat, found: Option<nat>): Result<Option<nat>, TextError>
    decreases |parts| - i
  {
    if i >= |parts| - 1 then Ok(found)
    else if parts[i] != "" then FindElision(parts, i + 1, found)
    else if found.Some? then Err(TwoElisions)
    else FindElision(parts, i + 1, Some(i))
  }

  /** How many parts to read before and after the elision, and how many groups it stands for. */
  datatype Layout = Layout(hi: nat, lo: nat, skipped: nat)

  function FindLayout(parts: seq<string>, elision: Option<nat>): Result<Layout, TextError>
    requires |parts| >= 3
    requires elision.Some? ==> 0 < elision.value < |parts| - 1
  {
    match elision
    case Some(skip) =>
      var hi := if parts[0] == "" then skip - 1 else skip;
      var lo0 := |parts| - skip - 1;
      var lo := if parts[|parts| - 1] == "" then lo0 - 1 else lo0;
      if parts[0] == "" && hi != 0 then Err(LeadingColon)
      else if parts[|parts| - 1] == "" && lo != 0 then Err(TrailingColon)
      else if 8 - (hi + lo) < 1 then Err(NothingElided)
      else Ok(Layout(hi, lo, 8 - (hi + lo)))
    case None =>
      if |parts| != 8 then Err(WrongPartCount)
      else if parts[0] == "" then Err(LeadingColon)
      else if parts[|parts| - 1] == "" then Err(TrailingColon)
      else Ok(Layout(|parts|, 0, 0))
  }

  lemma {:induction false} ElisionInside(parts: seq<string>, i: nat, found: Option<nat>)
    requires i > 0 && (found.Some? ==> 0 < found.value < |parts| - 1)
    ensures var r := FindElision(parts, i, found); r.Ok? && r.value.Some? ==> 0 < r.value.value < |parts| - 1
    decreases |parts| - i
  {
    if i < |parts| - 1 {
      if parts[i] != "" { ElisionInside(parts, i + 1, found); }
      else if found.None? { ElisionInside(parts, i + 1, Some(i)); }
    }
  }

  function ReadLayout(parts: seq<string>, l: Layout): Result<nat, TextError>
    requires l.hi <= |parts| && l.lo <= |parts|
  {
    match ReadGroups(0, parts[..l.hi])
    case Err(e) => Err(e)
    case Ok(high) => ReadGroups(ShiftLeft(high, 16 * l.skipped), parts[|parts| - l.lo..])
  }

  /** A dotted IPv4 tail becomes two hextets. */
  function ReplaceDotted(parts: seq<string>): Result<seq<string>, TextError>
    requires |parts| > 0
  {
    var last := parts[|parts| - 1];
    if '.' !in last then Ok(parts)
    else
      match ParseV4(last)
      case Err(e) => Err(e)
      case Ok(v) => Ok(parts[..|parts| - 1] + [HexText(v / RADIX % RADIX), HexText(v % RADIX)])
  }

  function ParseV6(text: string): Result<nat, TextError> {
    if text == "" then Err(EmptyText)
    else if |Split(text, ':')| < 3 then Err(TooFewParts)
    else
      match ReplaceDotted(Split(text, ':'))
      case Err(e) => Err(e)
      case Ok(parts) => ReadParts(parts)
  }

  function ReadParts(parts: seq<string>): Result<nat, TextError>
    requires |parts| >= 3
  {
    if |parts| > 9 then Err(TooManyParts)
    else
      ElisionInside(parts, 1, None);
      match FindElision(parts, 1, None)
      case Err(e) => Err(e)
      case Ok(elision) =>
        match FindLayout(parts, elision)
        case Err(e) => Err(e)
        case Ok(l) => ReadLayout(parts, l)
  }

  /** The parser as written: two counting loops over the parts around the checks. */
  method IntFromString(text: string) returns (r: Result<nat, TextError>)
    ensures r == ParseV6(text)
  {
    hide ParseV4, ReadGroups, Split, HexText, ShiftLeft;
    if text == "" {
      return Err(EmptyText);
    }
    var parts := Split(text, ':');
    if |parts| < 3 {
      return Err(TooFewParts);
    }
    if '.' in parts[|parts| - 1] {
      var v4 := ParseV4(parts[|parts| - 1]);
      if v4.Err? {
        return Err(v4.error);
      }
      parts := parts[..|parts| - 1] + [HexText(v4.value / RADIX % RADIX), HexText(v4.value % RADIX)];
    }
    if |parts| > 9 {
      return Err(TooManyParts);
    }
    ElisionInside(parts, 1, None);
    var skipIndex: Option<nat> := None;
    for i := 1 to |parts| - 1
      invariant FindElision(parts, i, skipIndex) == FindElision(parts, 1, None)
    {
      if parts[i] == "" {
        if skipIndex.Some? {
          return Err(TwoElisions);
        }
        skipIndex := Some(i);
      }
    }
    var layout := FindLayout(parts, skipIndex);
    if layout.Err? {
      return Err(layout.error);
    }
    var Layout(hi, lo, skipped) := layout.value;
    var high := ReadInto(0, parts[..hi]);
    if high.Err? {
      return high;
    }
    r := ReadInto(ShiftLeft(high.value, 16 * skipped), parts[|parts| - lo..]);
  }

  /** One of the two reading loops. */
  method ReadInto(start: nat, parts: seq<string>) returns (r: Result<nat, TextError>)
    ensures r == ReadGroups(start, parts)
  {
    hide ParseHextet, Or, ShiftLeft;
    var ipInt := start;
    assert parts[0..] == parts;
    for i := 0 to |parts|
      invariant ReadGroups(ipInt, parts[i..]) == ReadGroups(start, parts)
    {
      assert parts[i..][1..] == parts[i + 1..];
      var g := ParseHextet(parts[i]);
      if g.Err? {
        return Err(g.error);
      }
      ipInt := Or(ShiftLeft(ipInt, 16), g.value);
    }
    r := Ok(ipInt);
  }

  // ----- dotted IPv4 -----

  predicate IsDigit(c: char) {
    '0' <= c <= '9'
  }

  function DigitValue(c: char): nat
    requires IsDigit(c)
  {
    (c - '0') as nat
  }

  /** `int(s, 10)` on decimal digits */
  function DecNumber(s: string): nat
    requires forall c :: c in s ==> IsDigit(c)
  {
    if s == "" then 0
    else
      assert s[|s| - 1] in s;
      assert forall c :: c in s[..|s| - 1] ==> c in s;
      10 * DecNumber(s[..|s| - 1]) + DigitValue(s[|s| - 1])
  }

  function DecText(n: nat): string {
    if n < 10 then [HexDigit(n)] else DecText(n / 10) + [HexDigit(n % 10)]
  }

  function ParseOctet(s: string): Result<nat, TextError> {
    if s == "" then Err(BadOctets)
    else if !(forall c :: c in s ==> IsDigit(c)) then Err(BadOctets)
    else if |s| > 3 then Err(BadOctets)
    else if DecNumber(s) > 7 && s[0] == '0' then Err(BadOctets)
    else if DecNumber(s) > 255 then Err(BadOctets)
    else Ok(DecNumber(s))
  }

  /** Four octets, big end first. */
  function ParseV4(text: string): (r: Result<nat, TextError>) {
    if text == "" then Err(EmptyText)
    else
      var octets := Split(text, '.');
      if |octets| != 4 then Err(BadOctets)
      else Combine(ParseOctet(octets[0]), ParseOctet(octets[1]), ParseOctet(octets[2]), ParseOctet(octets[3]))
  }

  function Combine(a: Result<nat, TextError>, b: Result<nat, TextError>,
                   c: Result<nat, TextError>, d: Result<nat, TextError>): Result<nat, TextError> {
    if a.Err? || b.Err? || c.Err? || d.Err? then Err(BadOctets)
    else Ok(((a.value * 256 + b.value) * 256 + c.value) * 256 + d.value)
  }

  lemma {:induction false} DecRoundTrip(n: nat)
    ensures DecText(n) != "" && (forall c :: c in DecText(n) ==> IsDigit(c) && c != '.')
    ensures DecNumber(DecText(n)) == n
    ensures n > 0 ==> DecText(n)[0] != '0'
  {
    if n >= 10 {
      DecRoundTrip(n / 10);
      var s := DecText(n);
      assert s[..|s| - 1] == DecText(n / 10);
    } else {
      assert [HexDigit(n)][..0] == "";
    }
  }

  function TextV4(n: nat): string {
    Join([DecText(n / 16777216 % 256), DecText(n / 65536 % 256), DecText(n / 256 % 256), DecText(n % 256)], '.')
  }

  lemma OctetRoundTrip(n: nat)
    requires n < 256
    ensures ParseOctet(DecText(n)) == Ok(n) && '.' !in DecText(n)
  {
    DecRoundTrip(n);
    assert |DecText(n / 100)| == 1 && |DecText(n / 10)| <= 2;
    assert |DecText(n)| <= 3;
  }

  /** Every 32-bit number survives printing and parsing. */
  lemma V4RoundTrip(n: nat)
    requires n < Pow2(32)
    ensures ParseV4(TextV4(n)) == Ok(n)
  {
    hide ParseV4, DecText, Join;
    assert Pow2(32) == 0x1_0000_0000 by { Pow2Add16(16); Pow16(); }
    V4Joined(n / 16777216 % 256, n / 65536 % 256, n / 256 % 256, n % 256);
    OctetsOf(n);
  }

  lemma V4Joined(a: nat, b: nat, c: nat, d: nat)
    requires a < 256 && b < 256 && c < 256 && d < 256
    ensures ParseV4(Join([DecText(a), DecText(b), DecText(c), DecText(d)], '.')) == Ok(((a * 256 + b) * 256 + c) * 256 + d)
  {
    hide DecText, ParseOctet, Split, Join, ParseV4;
    OctetRoundTrip(a);
    OctetRoundTrip(b);
    OctetRoundTrip(c);
    OctetRoundTrip(d);
    V4Four(DecText(a), DecText(b), DecText(c), DecText(d), a, b, c, d);
  }

  lemma V4Four(s: string, t: string, u: string, v: string, a: nat, b: nat, c: nat, d: nat)
    requires '.' !in s && '.' !in t && '.' !in u && '.' !in v
    requires ParseOctet(s) == Ok(a) && ParseOctet(t) == Ok(b)
    requires ParseOctet(u) == Ok(c) && ParseOctet(v) == Ok(d)
    ensures ParseV4(Join([s, t, u, v], '.')) == Ok(((a * 256 + b) * 256 + c) * 256 + d)
  {
    hide ParseOctet, Split, Join, ParseV4;
    V4Parts([s, t, u, v], a, b, c, d);
  }

  lemma V4Parts(parts: seq<string>, a: nat, b: nat, c: nat, d: nat)
    requires |parts| == 4 && forall i :: 0 <= i < 4 ==> '.' !in parts[i]
    requires ParseOctet(parts[0]) == Ok(a) && ParseOctet(parts[1]) == Ok(b)
    requires ParseOctet(parts[2]) == Ok(c) && ParseOctet(parts[3]) == Ok(d)
    ensures ParseV4(Join(parts, '.')) == Ok(((a * 256 + b) * 256 + c) * 256 + d)
  {
    hide ParseOctet, Split, Join;
    JoinedParse(parts, '.');
  }

  lemma OctetsOf(n: nat)
    requires n < 0x1_0000_0000
    ensures ((n / 16777216 % 256 * 256 + n / 65536 % 256) * 256 + n / 256 % 256) * 256 + n % 256 == n
  {
    assert n / 256 / 256 == n / 65536 && n / 65536 / 256 == n / 16777216;
  }

  lemma JoinedParse(parts: seq<string>, sep: char)
    requires |parts| > 1 && forall i :: 0 <= i < |parts| ==> sep !in parts[i]
    ensures Join(parts, sep) != "" && Split(Join(parts, sep), sep) == parts
  {
    SplitJoin(parts, sep);
    assert |Join(parts, sep)| >= 1;
  }

  // ----- the IPv6 round trip -----

  lemma HextetRoundTrip(g: nat)
    requires g < RADIX
    ensures ParseHextet(HexText(g)) == Ok(g)
    ensures ':' !in HexText(g) && '.' !in HexText(g)
  {
    HexRoundTrip(g);
    Pow16();
    HexLength(g, 4);
  }

  lemma {:induction false} ReadTexts(acc: nat, g: seq<nat>)
    requires AreGroups(g)
    ensures ReadGroups(acc, Texts(g)) == Ok(Assemble(acc, g))
    decreases |g|
  {
    if g != [] {
      HextetRoundTrip(g[0]);
      ShiftOr(acc, g[0]);
      ReadTexts(acc * RADIX + g[0], g[1..]);
      assert Texts(g)[1..] == Texts(g[1..]);
    }
  }

  lemma {:induction false} NoElision(parts: seq<string>, i: nat, found: Option<nat>)
    requires forall k :: i <= k < |parts| - 1 ==> parts[k] != ""
    ensures FindElision(parts, i, found) == Ok(found)
    decreases |parts| - i
  {
    if i < |parts| - 1 { NoElision(parts, i + 1, found); }
  }

  lemma {:induction false} OneElision(parts: seq<string>, i: nat, at: nat)
    requires i <= at < |parts| - 1 && parts[at] == ""
    requires forall k :: i <= k < |parts| - 1 && k != at ==> parts[k] != ""
    ensures FindElision(parts, i, None) == Ok(Some(at))
    decreases at - i
  {
    if i < at { OneElision(parts, i + 1, at); } else { NoElision(parts, i + 1, Some(at)); }
  }

  lemma ZeroTexts(g: seq<nat>, start: nat, len: nat)
    requires start + len <= |g| && ZeroRun(Texts(g), start, len)
    ensures g[start..start + len] == Zeros(len)
    decreases len
  {
    forall i | start <= i < start + len ensures g[i] == 0 {
      assert Texts(g)[i] == "0";
      HexRoundTrip(g[i]);
      HexRoundTrip(0);
      assert HexText(0) == "0";
    }
    forall i | 0 <= i < len ensures g[start..start + len][i] == Zeros(len)[i] {
      assert Zeros(len)[i] in Zeros(len);
    }
  }

  /** Eliding any non-empty run of zero groups, not just the printer's choice, reads back the same. */
  lemma ElidedReads(g: seq<nat>, start: nat, len: nat)
    requires |g| == 8 && AreGroups(g)
    requires start + len <= 8 && len >= 2 && ZeroRun(Texts(g), start, len)
    ensures ParseV6(Join(Elide(Texts(g), start, len), ':')) == Ok(Assemble(0, g))
  {
    var h := Texts(g);
    var parts, at := Elide(h, start, len), if start == 0 then 1 else start;
    var l := Layout(start, 8 - (start + len), len);
    TextsAreWords(g);
    ElideShape(h, start, len);
    hide Elide, Texts, ZeroRun, AreGroups, ReadLayout, ReadGroups, ShiftLeft, Assemble;
    assert ParseV6(Join(parts, ':')) == ReadLayout(parts, l) by {
      hide ParseV6, Join;
      ElidedLayout(parts, at, l);
    }
    hide ParseV6, Join;
    LayoutReads(g, start, len);
    PartsRead(parts, l, h[..start], h[start + len..], Assemble(0, g[..start]), Assemble(0, g));
  }

  lemma TextsAreWords(g: seq<nat>)
    requires |g| == 8 && AreGroups(g)
    ensures |Texts(g)| == 8
    ensures forall i :: 0 <= i < 8 ==> Texts(g)[i] != "" && ':' !in Texts(g)[i] && '.' !in Texts(g)[i]
  {
    forall i | 0 <= i < 8 ensures Texts(g)[i] != "" && ':' !in Texts(g)[i] && '.' !in Texts(g)[i] {
      HextetRoundTrip(g[i]);
      HexRoundTrip(g[i]);
    }
  }

  /** The layout found for a list with one empty interior part. */
  lemma ElidedLayout(parts: seq<string>, at: nat, l: Layout)
    requires 3 <= |parts| <= 9 && forall i :: 0 <= i < |parts| ==> ':' !in parts[i] && '.' !in parts[i]
    requires 0 < at < |parts| - 1 && parts[at] == ""
    requires forall k :: 1 <= k < |parts| - 1 && k != at ==> parts[k] != ""
    requires l.hi <= |parts| && l.lo <= |parts| && l.hi + l.lo + l.skipped == 8 && l.skipped > 0
    requires if parts[0] == "" then l.hi == 0 && at == 1 else l.hi == at
    requires |parts| == at + 1 + l.lo + (if parts[|parts| - 1] == "" then 1 else 0)
    requires parts[|parts| - 1] == "" ==> l.lo == 0
    ensures ParseV6(Join(parts, ':')) == ReadLayout(parts, l)
  {
    hide Split, Join, ReadLayout, ParseV4, HexText;
    JoinedParse(parts, ':');
    OneElision(parts, 1, at);
    hide FindElision;
    LayoutFound(parts, at, l);
    hide FindLayout;
    assert ReplaceDotted(parts) == Ok(parts);
  }

  lemma LayoutFound(parts: seq<string>, at: nat, l: Layout)
    requires |parts| >= 3 && 0 < at < |parts| - 1
    requires l.hi <= |parts| && l.lo <= |parts| && l.hi + l.lo + l.skipped == 8 && l.skipped > 0
    requires if parts[0] == "" then l.hi == 0 && at == 1 else l.hi == at
    requires |parts| == at + 1 + l.lo + (if parts[|parts| - 1] == "" then 1 else 0)
    requires parts[|parts| - 1] == "" ==> l.lo == 0
    ensures FindLayout(parts, Some(at)) == Ok(l)
  {
  }

  lemma PartsRead(parts: seq<string>, l: Layout, hiParts: seq<string>, loParts: seq<string>, high: nat, v: nat)
    requires l.hi <= |parts| && l.lo <= |parts|
    requires parts[..l.hi] == hiParts && parts[|parts| - l.lo..] == loParts
    requires ReadGroups(0, hiParts) == Ok(high)
    requires ReadGroups(ShiftLeft(high, 16 * l.skipped), loParts) == Ok(v)
    ensures ReadLayout(parts, l) == Ok(v)
  {
    hide ReadGroups, ShiftLeft;
  }

  lemma TextsSlice(g: seq<nat>, i: nat, j: nat)
    requires i <= j <= |g|
    ensures Texts(g)[i..j] == Texts(g[i..j])
  {
    hide HexText;
  }

  /** Where the parts of an elided list are. */
  lemma ElideShape(h: seq<string>, start: nat, len: nat)
    requires |h| == 8 && start + len <= 8 && len >= 2
    requires forall i :: 0 <= i < 8 ==> h[i] != "" && ':' !in h[i] && '.' !in h[i]
    ensures var p := Elide(h, start, len);
      && 3 <= |p| <= 8
      && (forall i :: 0 <= i < |p| ==> ':' !in p[i] && '.' !in p[i])
      && var at := if start == 0 then 1 else start;
      && at < |p| - 1 && p[at] == ""
      && (forall k :: 1 <= k < |p| - 1 && k != at ==> p[k] != "")
      && (p[0] == "" <==> start == 0)
      && (p[|p| - 1] == "" <==> start + len == 8)
      && |p| == at + 1 + (8 - (start + len)) + (if start + len == 8 then 1 else 0)
      && (start > 0 ==> p[..start] == h[..start])
      && (start + len < 8 ==> p[at + 1..] == h[start + len..])
  {
    var p := Elide(h, start, len);
    var pre := if start == 0 then [""] else [];
    var post := if start + len == 8 then [""] else [];
    assert p == pre + h[..start] + [""] + h[start + len..] + post;
  }

  lemma LayoutReads(g: seq<nat>, start: nat, len: nat)
    requires |g| == 8 && AreGroups(g)
    requires start + len <= 8 && ZeroRun(Texts(g), start, len)
    ensures ReadGroups(0, Texts(g)[..start]) == Ok(Assemble(0, g[..start]))
    ensures ReadGroups(ShiftLeft(Assemble(0, g[..start]), 16 * len), Texts(g)[start + len..]) == Ok(Assemble(0, g))
  {
    hide Assemble, ReadGroups, ShiftLeft, Texts;
    TextsSlice(g, 0, start);
    TextsSlice(g, start + len, 8);
    assert Texts(g)[0..start] == Texts(g)[..start] && g[0..start] == g[..start];
    assert Texts(g)[start + len..8] == Texts(g)[start + len..] && g[start + len..8] == g[start + len..];
    ReadTexts(0, g[..start]);
    var high := Assemble(0, g[..start]);
    ShiftGroups(high, len);
    ZeroTexts(g, start, len);
    ReadTexts(ShiftLeft(high, 16 * len), g[start + len..]);
    AssembleAppend(0, g[..start], Zeros(len));
    AssembleAppend(0, g[..start] + Zeros(len), g[start + len..]);
    assert g == g[..start] + Zeros(len) + g[start + len..];
  }

  lemma PlainReads(g: seq<nat>)
    requires |g| == 8 && AreGroups(g)
    ensures ParseV6(Join(Texts(g), ':')) == Ok(Assemble(0, g))
  {
    var h := Texts(g);
    TextsAreWords(g);
    JoinedParse(h, ':');
    assert h[7] in h;
    NoElision(h, 1, None);
    ReadTexts(0, g);
    assert h[..8] == h && h[8..] == [];
    assert ShiftLeft(Assemble(0, g), 0) == Assemble(0, g);
  }

  /** Every 128-bit number survives printing and parsing. */
  lemma V6RoundTrip(n: nat, c: seq<string>)
    requires n < Pow2(128) && Compressed(Texts(Groups(n, 8)), c)
    ensures ParseV6(Join(c, ':')) == Ok(n)
  {
    var g := Groups(n, 8);
    GroupsAssemble(n, 8);
    if c == Texts(g) {
      PlainReads(g);
    } else {
      var start: nat, len: nat :| len >= 2 && LeftmostLongest(Texts(g), start, len) && c == Elide(Texts(g), start, len);
      assert ZeroRun(Texts(g), start, len);
      ElidedReads(g, start, len);
    }
  }

  // ----- what is accepted is an address -----

  lemma {:induction false} ReadBound(acc: nat, parts: seq<string>, b: nat)
    requires acc < Pow2(16 * b) && ReadGroups(acc, parts).Ok?
    ensures ReadGroups(acc, parts).value < Pow2(16 * (b + |parts|))
    decreases |parts|
  {
    if parts != [] {
      HextetBound(parts[0]);
      var g := ParseHextet(parts[0]).value;
      ShiftOr(acc, g);
      Pow2Add16(16 * b);
      ReadBound(acc * RADIX + g, parts[1..], b + 1);
    }
  }

  lemma HextetBound(s: string)
    requires ParseHextet(s).Ok?
    ensures ParseHextet(s).value < RADIX
  {
    HexNumberBound(s);
    if |s| < 4 { Pow2Less(4 * |s|, 16); }
    Pow16();
  }

  lemma {:induction false} HexNumberBound(s: string)
    requires forall c :: c in s ==> IsHexDigit(c)
    ensures HexNumber(s) < Pow2(4 * |s|)
    decreases |s|
  {
    if s != "" {
      assert forall c :: c in s[..|s| - 1] ==> c in s;
      HexNumberBound(s[..|s| - 1]);
      Pow2Add4(4 * (|s| - 1));
      assert s[|s| - 1] in s;
    }
  }

  /** An accepted text has a layout of eight groups in all. */
  lemma AcceptedLayout(text: string) returns (parts: seq<string>, l: Layout)
    requires ParseV6(text).Ok?
    ensures l.hi <= |parts| && l.lo <= |parts| && l.hi + l.lo + l.skipped == 8
    ensures ParseV6(text) == ReadLayout(parts, l)
  {
    hide Split, ReadGroups, ParseV4, HexText;
    parts := ReplaceDotted(Split(text, ':')).value;
    ElisionInside(parts, 1, None);
    var elision := FindElision(parts, 1, None).value;
    hide ReplaceDotted, FindElision;
    l := FindLayout(parts, elision).value;
  }

  lemma LayoutBound(parts: seq<string>, l: Layout)
    requires l.hi <= |parts| && l.lo <= |parts| && ReadLayout(parts, l).Ok?
    ensures ReadLayout(parts, l).value < Pow2(16 * (l.hi + l.skipped + l.lo))
  {
    hide ReadGroups, Pow2, ShiftLeft;
    var high := ReadGroups(0, parts[..l.hi]).value;
    assert Pow2(0) == 1 by { PowZero(); }
    ReadBound(0, parts[..l.hi], 0);
    ShiftBound(high, 16 * l.hi, 16 * l.skipped);
    assert 16 * l.hi + 16 * l.skipped == 16 * (l.hi + l.skipped);
    ReadBound(ShiftLeft(high, 16 * l.skipped), parts[|parts| - l.lo..], l.hi + l.skipped);
  }

  lemma PowZero()
    ensures Pow2(0) == 1
  {
  }

  /** Whatever text the parser accepts denotes a 128-bit number, so it can be printed,
      and the printed form is read as the same number. */
  lemma AcceptedIsAddress(text: string)
    requires ParseV6(text).Ok?
    ensures ParseV6(text).value < Pow2(128)
    ensures forall c :: Compressed(Texts(Groups(ParseV6(text).value, 8)), c) ==> ParseV6(Join(c, ':')) == ParseV6(text)
  {
    hide ParseV6, ReadLayout, Pow2, Compressed, Groups, Texts;
    var parts, l := AcceptedLayout(text);
    LayoutBound(parts, l);
    assert 16 * (l.hi + l.skipped + l.lo) == 128;
    forall c | Compressed(Texts(Groups(ParseV6(text).value, 8)), c)
      ensures ParseV6(Join(c, ':')) == ParseV6(text)
    {
      V6RoundTrip(ParseV6(text).value, c);
    }
  }

  lemma ShiftBound(x: nat, j: nat, k: nat)
    requires x < Pow2(j)
    ensures ShiftLeft(x, k) < Pow2(j + k)
  {
    Pow2Sum(j, k);
    LessTimes(x, Pow2(j), Pow2(k));
  }

  lemma LessTimes(x: nat, y: nat, z: nat)
    requires x < y && z > 0
    ensures x * z < y * z
  {
  }
}
