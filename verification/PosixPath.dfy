/** POSIX path parsing, printing, joining and relative paths. The drive is always empty here. */
module PosixPath {
  import opened Results
  import opened Sequences
  import opened Strings

  const SEP := '/'

  /** A parsed path. With a root, the first part is the root itself. */
  datatype Parsed = Parsed(root: string, parts: seq<string>)

  datatype PathError = NotASubpath | NoArguments

  predicate IsName(x: string) {
    x != "" && x != "." && SEP !in x
  }

  predicate WellFormed(p: Parsed) {
    if p.root == "" then forall x :: x in p.parts ==> IsName(x)
    else p.root in ["/", "//"] && p.parts != [] && p.parts[0] == p.root && forall x :: x in p.parts[1..] ==> IsName(x)
  }

  /** `s.lstrip(sep)` */
  function StripLeft(s: string): (r: string)
    ensures |r| <= |s|
  {
    if s != "" && s[0] == SEP then StripLeft(s[1..]) else s
  }

  /** Two leading slashes are a root of their own; any other number is one slash. */
  function SplitRoot(part: string): (string, string) {
    if part != "" && part[0] == SEP then
      var stripped := StripLeft(part);
      if |part| - |stripped| == 2 then ("//", stripped) else ("/", stripped)
    else ("", part)
  }

  lemma RootKinds(part: string)
    ensures SplitRoot(part).0 in ["", "/", "//"]
    ensures SplitRoot(part).0 == "" ==> SplitRoot(part).1 == part
  {
  }

  /** The meaningful names among split pieces. */
  function Names(pieces: seq<string>): seq<string> {
    if pieces == [] then []
    else if pieces[0] == "" || pieces[0] == "." then Names(pieces[1..])
    else [pieces[0]] + Names(pieces[1..])
  }

  lemma {:induction false} NamesAreNames(pieces: seq<string>)
    requires forall x :: x in pieces ==> SEP !in x
    ensures forall x :: x in Names(pieces) ==> IsName(x)
  {
    if pieces != [] {
      assert pieces[0] in pieces && forall x :: x in pieces[1..] ==> x in pieces;
      NamesAreNames(pieces[1..]);
    }
  }

  function NamesIn(rel: string): seq<string> {
    Names(Split(rel, SEP))
  }

  lemma NamesInAreNames(rel: string)
    ensures forall x :: x in NamesIn(rel) ==> IsName(x)
  {
    SplitParts(rel, SEP);
    NamesAreNames(Split(rel, SEP));
  }

  /** Parsing a list of texts: the last rooted text wins, everything after it is appended. */
  function Parse(parts: seq<string>): Parsed
    decreases |parts|
  {
    if parts == [] then Parsed("", [])
    else
      var front, last := parts[..|parts| - 1], parts[|parts| - 1];
      var (root, rel) := SplitRoot(last);
      if root != "" then Parsed(root, [root] + NamesIn(rel))
      else Parsed(Parse(front).root, Parse(front).parts + NamesIn(rel))
  }

  /** The loop: walk the texts and their pieces backwards, stop at a root, reverse at the end. */
  method ParseParts(parts: seq<string>) returns (r: Parsed)
    ensures r == Parse(parts)
  {
    hide SplitRoot, NamesIn, Split;
    var parsed: seq<string>, root := [], "";
    var i := |parts|;
    assert parts[..i] == parts && Parse(parts).parts + [] == Parse(parts).parts;
    while i > 0
      invariant 0 <= i <= |parts| && root == ""
      invariant Parse(parts) == Parsed(Parse(parts[..i]).root, Parse(parts[..i]).parts + Reversed(parsed))
    {
      i := i - 1;
      var part := parts[i];
      ghost var known := parts[..i + 1];
      assert known[..i] == parts[..i] && known[i] == part;
      if part == "" {
        EmptyPiece();
        assert Parse(parts[..i]).parts + [] + Reversed(parsed) == Parse(parts[..i]).parts + Reversed(parsed);
        continue;
      }
      var (newRoot, rel) := SplitRoot(part);
      root := newRoot;
      ghost var before := parsed;
      parsed := AppendNames(parsed, rel);
      assert Parse(parts[..i]).parts + NamesIn(rel) + Reversed(before)
          == Parse(parts[..i]).parts + Reversed(parsed);
      if root != "" {
        assert [root] + NamesIn(rel) + Reversed(before) == [root] + Reversed(parsed);
        break;
      }
    }
    if root != "" {
      ReversedAppend(parsed, root);
      parsed := parsed + [root];
    }
    assert root == "" ==> parts[..i] == [] && [] + Reversed(parsed) == Reversed(parsed);
    r := Parsed(root, Reversed(parsed));
  }

  lemma EmptyPiece()
    ensures SplitRoot("") == ("", "") && NamesIn("") == []
  {
    assert Split("", SEP) == [""];
    assert [""][1..] == [];
  }

  /** Append the names of one relative text, last first. */
  method AppendNames(parsed0: seq<string>, rel: string) returns (parsed: seq<string>)
    ensures Reversed(parsed) == NamesIn(rel) + Reversed(parsed0)
  {
    parsed := parsed0;
    if SEP in rel {
      var pieces := Split(rel, SEP);
      var j := |pieces|;
      assert pieces[|pieces|..] == [];
      while j > 0
        invariant 0 <= j <= |pieces|
        invariant Reversed(parsed) == Names(pieces[j..]) + Reversed(parsed0)
      {
        j := j - 1;
        assert pieces[j..][1..] == pieces[j + 1..];
        if pieces[j] != "" && pieces[j] != "." {
          ReversedAppend(parsed, pieces[j]);
          parsed := parsed + [pieces[j]];
        }
      }
      assert pieces[0..] == pieces;
    } else {
      SplitNone(rel, SEP);
      assert [rel][1..] == [] && Names([]) == [];
      assert [rel] + [] == [rel] && [] + Reversed(parsed0) == Reversed(parsed0);
      if rel != "" && rel != "." {
        ReversedAppend(parsed, rel);
        parsed := parsed + [rel];
      }
    }
  }

  /** Joining two parsed paths: a rooted second path replaces the first. */
  function JoinParsed(p: Parsed, q: Parsed): Parsed {
    if q.root != "" then q else Parsed(p.root, p.parts + q.parts)
  }

  function Format(p: Parsed): string {
    if p.root != "" && p.parts != [] then p.root + Join(p.parts[1..], SEP) else Join(p.parts, SEP)
  }

  /** `str(path)`: the empty path prints as a dot. */
  function Text(p: Parsed): string {
    if Format(p) == "" then "." else Format(p)
  }

  // ----- normal form -----

  /** Whatever is parsed is in normal form. */
  lemma {:induction false} ParseWellFormed(parts: seq<string>)
    ensures WellFormed(Parse(parts))
    decreases |parts|
  {
    if parts != [] {
      var front, last := parts[..|parts| - 1], parts[|parts| - 1];
      ParseWellFormed(front);
      RootKinds(last);
      var (root, rel) := SplitRoot(last);
      NamesInAreNames(rel);
      hide NamesIn, SplitRoot;
      assert root != "" ==> ([root] + NamesIn(rel))[1..] == NamesIn(rel);
      var f := Parse(front);
      if root == "" && f.root != "" {
        assert (f.parts + NamesIn(rel))[1..] == f.parts[1..] + NamesIn(rel);
      }
    }
  }

  lemma {:induction false} NamesOfNames(s: seq<string>)
    requires forall x :: x in s ==> IsName(x)
    ensures Names(s) == s
  {
    if s != [] {
      assert s[0] in s && forall x :: x in s[1..] ==> x in s;
      NamesOfNames(s[1..]);
      assert [s[0]] + s[1..] == s;
    }
  }

  /** Names printed with separators between them are read back. */
  lemma NamesOfJoin(s: seq<string>)
    requires forall x :: x in s ==> IsName(x)
    ensures NamesIn(Join(s, SEP)) == s
    ensures Join(s, SEP) != "" ==> Join(s, SEP)[0] != SEP
    ensures Join(s, SEP) == "" <==> s == []
  {
    if s == [] {
      EmptyPiece();
    } else {
      assert s[0] in s;
      assert s[0][0] in s[0];
      SplitJoin(s, SEP);
      NamesOfNames(s);
    }
  }

  lemma ParseOne(part: string)
    ensures Parse([part]) == var (root, rel) := SplitRoot(part);
              Parsed(root, (if root != "" then [root] else []) + NamesIn(rel))
  {
    assert [part][..0] == [];
    assert [] + NamesIn(part) == NamesIn(part);
  }

  /** Parsing the printed form of a path gives the path back. */
  lemma TextRoundTrip(p: Parsed)
    requires WellFormed(p)
    ensures Parse([Text(p)]) == p
  {
    ParseOne(Text(p));
    hide NamesIn, Join, Parse;
    if p.root == "" {
      NamesOfJoin(p.parts);
      assert SplitRoot(Text(p)) == ("", Text(p));
      if p.parts == [] { DotIsEmpty(); }
    } else {
      var rest := p.parts[1..];
      NamesOfJoin(rest);
      StripRoot(p.root, Join(rest, SEP));
      assert p.parts == [p.root] + rest;
    }
  }

  lemma DotIsEmpty()
    ensures NamesIn(".") == []
  {
    SplitNone(".", SEP);
    assert ["."][1..] == [];
  }

  lemma StripRoot(root: string, s: string)
    requires root in ["/", "//"] && (s != "" ==> s[0] != SEP)
    ensures SplitRoot(root + s) == (root, s)
  {
    assert StripLeft(s) == s;
    var one := "/" + s;
    assert one[1..] == s && StripLeft(one) == s;
    if root == "//" {
      assert root + s == "/" + one && (root + s)[1..] == one;
    }
  }

  /** Printing is injective on normal forms. */
  lemma TextInjective(p: Parsed, q: Parsed)
    requires WellFormed(p) && WellFormed(q) && Text(p) == Text(q)
    ensures p == q
  {
    TextRoundTrip(p);
    TextRoundTrip(q);
  }

  /** Parsing some texts together is parsing the first ones and joining the parse of the rest. */
  lemma {:induction false} ParseTogether(a: seq<string>, b: seq<string>)
    ensures Parse(a + b) == JoinParsed(Parse(a), Parse(b))
    decreases |b|
  {
    if b == [] {
      assert a + b == a;
      assert Parse(a).parts + [] == Parse(a).parts;
    } else {
      var front, last := b[..|b| - 1], b[|b| - 1];
      ParseTogether(a, front);
      ParseLast(b, front, last);
      assert a + b == a + front + [last];
      ParseLast(a + b, a + front, last);
      hide Parse, SplitRoot, NamesIn;
      Regroup(Parse(a).parts, Parse(front).parts, NamesIn(SplitRoot(last).1));
    }
  }

  /** One more text: its root replaces what came before, otherwise its names are appended. */
  function Extended(p: Parsed, last: string): Parsed {
    var (root, rel) := SplitRoot(last);
    if root != "" then Parsed(root, [root] + NamesIn(rel)) else Parsed(p.root, p.parts + NamesIn(rel))
  }

  lemma ParseLast(parts: seq<string>, front: seq<string>, last: string)
    requires parts == front + [last]
    ensures Parse(parts) == Extended(Parse(front), last)
  {
    hide NamesIn, SplitRoot;
    assert parts[..|parts| - 1] == front;
  }

  /** Parsing the parts of a path gives the path back. */
  lemma PartsRoundTrip(p: Parsed)
    requires WellFormed(p)
    ensures Parse(p.parts) == p
  {
    hide Parse, NamesIn, SplitRoot;
    if p.root == "" {
      ParseNames(p.parts);
    } else {
      var rest := p.parts[1..];
      assert p.parts == [p.root] + rest;
      ParseTogether([p.root], rest);
      ParseNames(rest);
      ParseOne(p.root);
      StripRoot(p.root, "");
      assert p.root + "" == p.root;
      EmptyPiece();
      assert [p.root] + [] == [p.root];
    }
  }

  lemma {:induction false} ParseNames(s: seq<string>)
    requires forall x :: x in s ==> IsName(x)
    ensures Parse(s) == Parsed("", s)
    decreases |s|
  {
    if s != [] {
      var front, last := s[..|s| - 1], s[|s| - 1];
      assert last in s && last[0] in last;
      ParseNames(front);
      SplitNone(last, SEP);
      NamesOfNames([last]);
      assert NamesIn(last) == [last];
      hide NamesIn;
      assert s == front + [last];
    }
  }

  /** One argument of a constructor or a join: a text, or a path that stands for its parts. */
  datatype Argument = TextArg(text: string) | PathArg(path: Parsed)

  function Flatten(args: seq<Argument>): seq<string> {
    if args == [] then []
    else (match args[0] case TextArg(t) => [t] case PathArg(p) => p.parts) + Flatten(args[1..])
  }

  lemma {:induction false} FlattenAppend(a: seq<Argument>, b: seq<Argument>)
    ensures Flatten(a + b) == Flatten(a) + Flatten(b)
  {
    if a == [] {
      assert a + b == b && Flatten(a) + Flatten(b) == Flatten(b);
    } else {
      FlattenAppend(a[1..], b);
      var head := match a[0] case TextArg(t) => [t] case PathArg(p) => p.parts;
      assert (a + b)[1..] == a[1..] + b && (a + b)[0] == a[0];
      assert head + (Flatten(a[1..]) + Flatten(b)) == head + Flatten(a[1..]) + Flatten(b);
    }
  }

  function MakePath(args: seq<Argument>): Parsed {
    Parse(Flatten(args))
  }

  /** `path / args` */
  function MakeChild(p: Parsed, args: seq<Argument>): Parsed {
    JoinParsed(p, MakePath(args))
  }

  /** Building a path from all arguments at once, or from the first and joining the others
      one group after another, is the same. */
  lemma BuildOrJoin(first: seq<Argument>, second: seq<Argument>, third: seq<Argument>)
    ensures MakePath(first + second) == MakeChild(MakePath(first), second)
    ensures MakeChild(MakeChild(MakePath(first), second), third) == MakeChild(MakePath(first), second + third)
  {
    hide Parse, Flatten;
    FlattenAppend(first, second);
    FlattenAppend(second, third);
    ParseTogether(Flatten(first), Flatten(second));
    ParseTogether(Flatten(second), Flatten(third));
    var p, q, r := MakePath(first), MakePath(second), MakePath(third);
    assert p.parts + q.parts + r.parts == p.parts + (q.parts + r.parts);
  }

  // ----- relative paths -----

  /** Parts with drive and root as separate leading parts. */
  function AbsParts(p: Parsed): seq<string> {
    if p.root != "" && p.parts != [] then ["", p.root] + p.parts[1..] else p.parts
  }

  function RelativeTo(self: Parsed, other: seq<Argument>): Result<Parsed, PathError> {
    if other == [] then Err(NoArguments)
    else
      var to := MakePath(other);
      var abs, toAbs := AbsParts(self), AbsParts(to);
      var n := |toAbs|;
      if (if n == 0 then self.root != "" else (if n <= |abs| then abs[..n] else abs) != toAbs) then Err(NotASubpath)
      else if n <= |abs| then Ok(Parsed(if n == 1 then self.root else "", abs[n..]))
      else Err(NotASubpath)
  }

  /** `q` is the relative path from `p` to `self` exactly when joining it to `p` gives `self`. */
  lemma RelativeToExact(self: Parsed, other: seq<Argument>, q: Parsed)
    requires WellFormed(self) && WellFormed(q) && q.root == "" && other != []
    ensures RelativeTo(self, other) == Ok(q) <==> JoinParsed(MakePath(other), q) == self
  {
    var p := MakePath(other);
    ParseWellFormed(Flatten(other));
    assert WellFormed(p);
    hide MakePath;
    JoinedParts(p, q);
    if RelativeTo(self, other) == Ok(q) {
      assert AbsParts(self) == AbsParts(p) + q.parts;
      AbsPartsInjective(self, JoinParsed(p, q));
    }
  }

  lemma AbsPartsInjective(p: Parsed, q: Parsed)
    requires WellFormed(p) && WellFormed(q) && AbsParts(p) == AbsParts(q)
    ensures p == q
  {
    AbsPartsRoot(p);
    AbsPartsRoot(q);
    if p.root != "" {
      assert p.parts == [p.root] + AbsParts(p)[2..];
      assert q.parts == [q.root] + AbsParts(q)[2..];
    }
  }

  /** The root can be read off the separated parts. */
  lemma AbsPartsRoot(p: Parsed)
    requires WellFormed(p)
    ensures p.root != "" <==> AbsParts(p) != [] && AbsParts(p)[0] == ""
    ensures p.root != "" ==> |AbsParts(p)| >= 2 && AbsParts(p)[1] == p.root
  {
    if p.root == "" && p.parts != [] { assert p.parts[0] in p.parts; }
  }

  lemma JoinedParts(p: Parsed, q: Parsed)
    requires WellFormed(p) && WellFormed(q) && q.root == ""
    ensures AbsParts(JoinParsed(p, q)) == AbsParts(p) + q.parts && WellFormed(JoinParsed(p, q))
    ensures (AbsParts(p) + q.parts)[..|AbsParts(p)|] == AbsParts(p)
    ensures (AbsParts(p) + q.parts)[|AbsParts(p)|..] == q.parts
    ensures |AbsParts(p)| <= 1 ==> p.root == ""
  {
    hide IsName;
    AppendSplits(AbsParts(p), q.parts);
    JoinedWellFormed(p, q);
    if p.root != "" {
      hide WellFormed;
      TailOfAppend(p.parts, q.parts);
      Regroup(["", p.root], p.parts[1..], q.parts);
    }
  }

  lemma JoinedWellFormed(p: Parsed, q: Parsed)
    requires WellFormed(p) && WellFormed(q) && q.root == ""
    ensures WellFormed(JoinParsed(p, q))
  {
    hide IsName;
    if p.root != "" { TailOfAppend(p.parts, q.parts); }
  }

  lemma TailOfAppend(s: seq<string>, t: seq<string>)
    requires s != []
    ensures (s + t)[1..] == s[1..] + t && (s + t)[0] == s[0]
  {
  }

  lemma Regroup(a: seq<string>, b: seq<string>, c: seq<string>)
    ensures a + (b + c) == a + b + c
  {
  }

  lemma AppendSplits(s: seq<string>, t: seq<string>)
    ensures (s + t)[..|s|] == s && (s + t)[|s|..] == t
  {
  }

  /** Whatever relative_to returns is a relative path in normal form. */
  lemma RelativeToWellFormed(self: Parsed, other: seq<Argument>)
    requires WellFormed(self) && RelativeTo(self, other).Ok?
    ensures RelativeTo(self, other).value.root == "" && WellFormed(RelativeTo(self, other).value)
  {
    var p := MakePath(other);
    ParseWellFormed(Flatten(other));
    var abs, toAbs := AbsParts(self), AbsParts(p);
    var n := |toAbs|;
    AbsPartsRoot(self);
    AbsPartsRoot(p);
    hide MakePath;
    if n > 0 {
      assert abs[..n][0] == abs[0];
      if self.root != "" {
        assert abs[n..] == self.parts[1..][n - 2..];
      }
    }
  }

  /** `(p / q).relative_to(p)` is `q` for every relative `q`. */
  lemma JoinThenRelative(p: Parsed, q: Parsed)
    requires WellFormed(p) && WellFormed(q) && q.root == ""
    ensures RelativeTo(MakeChild(p, [PathArg(q)]), [PathArg(p)]) == Ok(q)
  {
    hide Parse, WellFormed, RelativeTo;
    OnePath(p);
    OnePath(q);
    JoinedParts(p, q);
    RelativeToExact(JoinParsed(p, q), [PathArg(p)], q);
  }

  lemma OnePath(p: Parsed)
    requires WellFormed(p)
    ensures MakePath([PathArg(p)]) == p
  {
    hide Parse;
    PartsRoundTrip(p);
    assert [PathArg(p)][1..] == [] && Flatten([]) == [];
    assert Flatten([PathArg(p)]) == p.parts + [] == p.parts;
  }

  // ----- how texts are read -----

  predicate Relative(text: string) {
    text == "" || text[0] != SEP
  }

  lemma {:induction false} NamesAppend(x: seq<string>, y: seq<string>)
    ensures Names(x + y) == Names(x) + Names(y)
    decreases |x|
  {
    if x == [] {
      assert x + y == y;
    } else {
      NamesAppend(x[1..], y);
      assert (x + y)[0] == x[0] && (x + y)[1..] == x[1..] + y;
      Regroup([x[0]], Names(x[1..]), Names(y));
    }
  }

  lemma NamesTwo(a: string, b: string)
    ensures NamesIn(a + [SEP] + b) == NamesIn(a) + NamesIn(b)
  {
    SplitTwo(a, b, SEP);
    NamesAppend(Split(a, SEP), Split(b, SEP));
    hide Split, Names;
  }

  lemma ReadOne(text: string)
    ensures Relative(text) ==> Parse([text]) == Parsed("", NamesIn(text))
    ensures !Relative(text) ==> Parse([text]) == Parsed(SplitRoot(text).0, [SplitRoot(text).0] + NamesIn(SplitRoot(text).1))
  {
    ParseOne(text);
    assert [] + NamesIn(text) == NamesIn(text);
  }

  /** A relative text and more after a slash: the parts of both; so doubled slashes, dots between
      slashes and a slash at the end count for nothing. */
  lemma ReadTogether(a: string, b: string)
    requires a != "" && Relative(a)
    ensures Relative(b) ==> Parse([a + "/" + b]) == Parsed("", Parse([a]).parts + Parse([b]).parts)
    ensures Parse([a + "//" + b]) == Parse([a + "/" + b])
    ensures Parse([a + "/./" + b]) == Parse([a + "/" + b])
    ensures Parse([a + "/"]) == Parse([a])
  {
    hide Parse, NamesIn, SplitRoot;
    assert a + "//" + b == a + [SEP] + ("" + [SEP] + b) && a + "/./" + b == a + [SEP] + ("." + [SEP] + b) && a + "/" == a + [SEP] + "";
    ReadOne(a);
    ReadOne(b);
    ReadOne(a + "/" + b);
    ReadOne(a + "//" + b);
    ReadOne(a + "/./" + b);
    ReadOne(a + "/");
    NamesTwo(a, b);
    NamesTwo(a, "" + [SEP] + b);
    NamesTwo("", b);
    NamesTwo(a, "." + [SEP] + b);
    NamesTwo(".", b);
    NamesTwo(a, "");
    NoNames();
    assert [] + NamesIn(b) == NamesIn(b) && NamesIn(a) + [] == NamesIn(a);
  }

  lemma NoNames()
    ensures NamesIn("") == [] && NamesIn(".") == []
  {
    SplitNone("", SEP);
    SplitNone(".", SEP);
    assert [""][1..] == [] && ["."][1..] == [];
  }

  /** Nothing and a dot are the empty path, any other text without a slash is one part. */
  lemma ReadName(x: string)
    ensures Parse([""]) == Parse(["."]) == Parsed("", [])
    ensures IsName(x) ==> Parse([x]) == Parsed("", [x])
  {
    ReadOne("");
    ReadOne(".");
    NoNames();
    if IsName(x) {
      ReadOne(x);
      SplitNone(x, SEP);
      assert [x][1..] == [];
      assert x[0] in x;
    }
  }

  function Slashes(n: nat): string {
    if n == 0 then "" else [SEP] + Slashes(n - 1)
  }

  lemma {:induction false} StripSlashes(n: nat, rest: string)
    requires Relative(rest)
    ensures |Slashes(n)| == n && StripLeft(Slashes(n) + rest) == rest && (n > 0 ==> (Slashes(n) + rest)[0] == SEP)
    decreases n
  {
    if n > 0 {
      StripSlashes(n - 1, rest);
      assert Slashes(n) + rest == [SEP] + (Slashes(n - 1) + rest);
    } else {
      assert Slashes(0) + rest == rest;
    }
  }

  /** Two slashes in front are a root of their own, any other number is the root of one slash. */
  lemma ReadRoot(n: nat, rest: string)
    requires n > 0 && Relative(rest)
    ensures var root := if n == 2 then "//" else "/";
      Parse([Slashes(n) + rest]) == Parsed(root, [root] + Parse([rest]).parts)
  {
    StripSlashes(n, rest);
    ReadOne(Slashes(n) + rest);
    ReadOne(rest);
    hide Parse, NamesIn;
  }

  /** Of several texts, one with a root makes those before it void; one without adds its parts. */
  lemma ReadLast(front: seq<string>, last: string)
    ensures !Relative(last) ==> Parse(front + [last]) == Parse([last])
    ensures Relative(last) ==> Parse(front + [last]) == Parsed(Parse(front).root, Parse(front).parts + Parse([last]).parts)
  {
    ReadOne(last);
    assert (front + [last])[..|front|] == front;
    hide NamesIn;
  }
}
