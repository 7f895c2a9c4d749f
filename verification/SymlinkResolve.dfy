/** POSIX symlink resolution: the memoised resolver with its in-progress marks, and
    the plain recursive resolution it has to agree with. */
module SymlinkResolve {
  import opened Strings
  import opened Results

  const SEP := '/'

  /** What reading a path as a symlink gives: a target, "not a link", or another OS error. */
  datatype Link = Target(text: string) | NotALink | Failure(errno: int)

  const ENOENT := 2

  type FileSystem = map<string, Link>

  function ReadLink(fs: FileSystem, path: string): Link {
    if path in fs then fs[path] else Failure(ENOENT)
  }

  predicate IsLink(fs: FileSystem, path: string) {
    path in fs && fs[path].Target?
  }

  /** `path.rpartition(sep)[0]` */
  function Parent(path: string): string {
    if path == "" then ""
    else if path[|path| - 1] == SEP then path[..|path| - 1]
    else Parent(path[..|path| - 1])
  }

  function Child(path: string, name: string): string {
    path + [SEP] + name
  }

  lemma {:induction false} ParentOfChild(path: string, name: string)
    requires SEP !in name
    ensures Parent(Child(path, name)) == path
  {
    var p := Child(path, name);
    var n := |p| - 1;
    if name == "" {
      assert p[..n] == path;
    } else {
      var m := |name| - 1;
      assert name[m] in name && p[n] == name[m];
      assert forall c :: c in name[..m] ==> c in name;
      assert p[..n] == Child(path, name[..m]);
      ParentOfChild(path, name[..m]);
    }
  }

  lemma {:induction false} ParentShorter(path: string)
    ensures |Parent(path)| <= |path| && (path != "" ==> |Parent(path)| < |path|)
  {
    if path != "" { ParentShorter(path[..|path| - 1]); }
  }

  // ----- plain resolution, with a bound on the nesting of links -----

  datatype Naive = OutOfFuel | Done(path: string) | Raised(errno: int)

  /** Follow the names one by one; a link is resolved from scratch every time it is met. */
  function Walk(fs: FileSystem, path: string, names: seq<string>, fuel: nat): Naive
    decreases fuel, 0, |names|
  {
    if names == [] then Done(path)
    else
      var name, rest := names[0], names[1..];
      if name == "" || name == "." then Walk(fs, path, rest, fuel)
      else if name == ".." then Walk(fs, Parent(path), rest, fuel)
      else
        match ReadLink(fs, Child(path, name))
        case Failure(e) => Raised(e)
        case NotALink => Walk(fs, Child(path, name), rest, fuel)
        case Target(text) =>
          if fuel == 0 then OutOfFuel
          else
            match Resolution(fs, path, text, fuel - 1)
            case Done(p) => Walk(fs, p, rest, fuel)
            case other => other
  }

  /** Resolution of a text relative to `path`. */
  function Resolution(fs: FileSystem, path: string, text: string, fuel: nat): Naive
    decreases fuel, 1
  {
    Walk(fs, Start(path, text), Split(text, SEP), fuel)
  }

  function Start(path: string, text: string): string {
    if text != "" && text[0] == SEP then "" else path
  }

  /** A result, once reached, does not depend on the bound. */
  lemma {:induction false} WalkMonotone(fs: FileSystem, path: string, names: seq<string>, f: nat, g: nat)
    requires f <= g && !Walk(fs, path, names, f).OutOfFuel?
    ensures Walk(fs, path, names, g) == Walk(fs, path, names, f)
    decreases f, 0, |names|
  {
    if names != [] {
      var name, rest := names[0], names[1..];
      if name == "" || name == "." {
        WalkMonotone(fs, path, rest, f, g);
      } else if name == ".." {
        WalkMonotone(fs, Parent(path), rest, f, g);
      } else {
        match ReadLink(fs, Child(path, name))
        case Failure(e) =>
        case NotALink => WalkMonotone(fs, Child(path, name), rest, f, g);
        case Target(text) =>
          ResolutionMonotone(fs, path, text, f - 1, g - 1);
          var r := Resolution(fs, path, text, f - 1);
          if r.Done? { WalkMonotone(fs, r.path, rest, f, g); }
      }
    }
  }

  lemma {:induction false} ResolutionMonotone(fs: FileSystem, path: string, text: string, f: nat, g: nat)
    requires f <= g && !Resolution(fs, path, text, f).OutOfFuel?
    ensures Resolution(fs, path, text, g) == Resolution(fs, path, text, f)
    decreases f, 1
  {
    WalkMonotone(fs, Start(path, text), Split(text, SEP), f, g);
  }

  /** Plain resolution never comes to an end. */
  ghost predicate Diverges(fs: FileSystem, path: string, text: string) {
    forall f: nat :: Resolution(fs, path, text, f).OutOfFuel?
  }

  /** Plain resolution ends with `r`. */
  ghost predicate Yields(fs: FileSystem, path: string, text: string, r: Naive) {
    !r.OutOfFuel? && exists f: nat :: Resolution(fs, path, text, f) == r
  }

  lemma YieldsOne(fs: FileSystem, path: string, text: string, r: Naive, s: Naive)
    requires Yields(fs, path, text, r)
    ensures !Diverges(fs, path, text)
    ensures Yields(fs, path, text, s) ==> r == s
  {
    var f: nat :| Resolution(fs, path, text, f) == r;
    if Yields(fs, path, text, s) {
      var g: nat :| Resolution(fs, path, text, g) == s;
      if f <= g { ResolutionMonotone(fs, path, text, f, g); } else { ResolutionMonotone(fs, path, text, g, f); }
    }
  }

  // ----- what a resolved path looks like -----

  /** Neither the path nor any of its ancestors is a symlink. */
  ghost predicate LinkFree(fs: FileSystem, path: string)
    decreases |path|
  {
    path == "" || (!IsLink(fs, path) && (ParentShorter(path); LinkFree(fs, Parent(path))))
  }

  predicate Ordinary(name: string) {
    name != "" && name != "." && name != ".." && SEP !in name
  }

  /** Built from ordinary names only, each step an existing non-link. */
  ghost predicate Real(fs: FileSystem, path: string)
    decreases |path|
  {
    path == "" ||
    exists name: string :: Ordinary(name) && |name| < |path| && path == Child(path[..|path| - |name| - 1], name)
      && ReadLink(fs, path).NotALink? && Real(fs, path[..|path| - |name| - 1])
  }

  lemma RealChild(fs: FileSystem, path: string, name: string)
    requires Real(fs, path) && Ordinary(name) && ReadLink(fs, Child(path, name)).NotALink?
    ensures Real(fs, Child(path, name))
  {
    var p := Child(path, name);
    assert p[..|p| - |name| - 1] == path;
  }

  lemma RealParent(fs: FileSystem, path: string)
    requires Real(fs, path)
    ensures Real(fs, Parent(path))
  {
    if path != "" {
      var name: string :| Ordinary(name) && |name| < |path| && path == Child(path[..|path| - |name| - 1], name)
        && ReadLink(fs, path).NotALink? && Real(fs, path[..|path| - |name| - 1]);
      ParentOfChild(path[..|path| - |name| - 1], name);
    }
  }

  lemma LinkFreeChild(fs: FileSystem, path: string, name: string)
    requires LinkFree(fs, path) && SEP !in name && !IsLink(fs, Child(path, name))
    ensures LinkFree(fs, Child(path, name))
  {
    ParentOfChild(path, name);
    ParentShorter(Child(path, name));
  }

  /** What resolving one text preserves about the directory it starts from. */
  ghost predicate Clean(fs: FileSystem, from: string, path: string) {
    (LinkFree(fs, from) ==> LinkFree(fs, path)) && (Real(fs, from) ==> Real(fs, path))
  }

  // ----- the memoised resolver -----

  datatype Outcome = Resolved(path: string) | SymlinkLoop(at: string) | OsError(errno: int)

  /** The outcome says exactly what plain resolution does. */
  ghost predicate Agrees(fs: FileSystem, path: string, text: string, r: Outcome) {
    match r
    case Resolved(p) => Yields(fs, path, text, Done(p))
    case OsError(e) => Yields(fs, path, text, Raised(e))
    case SymlinkLoop(_) => Diverges(fs, path, text)
  }

  /** Plain resolution of `text` from `path` ends within the bound. */
  ghost predicate Ends(fs: FileSystem, path: string, text: string, f: nat) {
    !Resolution(fs, path, text, f).OutOfFuel?
  }

  /** Part of the way through: what is left to do, `names` from `path`, decides the result from
      bound `f0` on, and ends at every bound at which the whole ends. */
  ghost predicate Tracks(fs: FileSystem, path0: string, text: string, path: string, names: seq<string>, f0: nat) {
    && (forall f: nat :: f >= f0 ==> Resolution(fs, path0, text, f) == Walk(fs, path, names, f))
    && (forall f: nat :: Ends(fs, path0, text, f) ==> !Walk(fs, path, names, f).OutOfFuel?)
    && Clean(fs, Start(path0, text), path)
  }

  class Resolver {
    const fs: FileSystem
    /** `None` marks a link whose resolution has begun and not ended. */
    var seen: map<string, Option<string>>

    constructor (fs: FileSystem)
      ensures this.fs == fs && seen == map[]
    {
      this.fs := fs;
      seen := map[];
    }

    /** Only links are marked, and every remembered result is what plain resolution gives. */
    ghost predicate Valid()
      reads this
    {
      && seen.Keys <= fs.Keys
      && (forall k :: k in seen ==> fs[k].Target?)
      && forall k :: k in seen && seen[k].Some? ==>
          Yields(fs, Parent(k), fs[k].text, Done(seen[k].value)) && Clean(fs, Parent(k), seen[k].value)
    }

    /** Plain resolution of any link in progress nests that of `text` at the same bound. */
    ghost predicate Nested(path: string, text: string)
      requires Valid()
      reads this
    {
      forall k, f: nat :: (k in seen && seen[k].None? && Ends(fs, Parent(k), fs[k].text, f)) ==> Ends(fs, path, text, f)
    }

    method ResolveText(path0: string, rest: string) returns (r: Outcome)
      requires Valid() && Nested(path0, rest)
      modifies this
      ensures Valid()
      ensures forall k :: k in old(seen) ==> k in seen && seen[k] == old(seen[k])
      ensures r.Resolved? ==> forall k :: k in seen && seen[k].None? ==> k in old(seen)
      ensures Agrees(fs, path0, rest, r)
      ensures r.Resolved? ==> Clean(fs, Start(path0, rest), r.path)
      decreases fs.Keys - seen.Keys, 1
    {
      hide Walk, Resolution, Yields, Clean, Diverges, Parent, Tracks, Agrees, Split, Ends, Child, Start, Real, LinkFree;
      var path := Start(path0, rest);
      var names := Split(rest, SEP);
      SplitParts(rest, SEP);
      ghost var f0: nat := 0;
      StepStart(fs, path0, rest);
      for i := 0 to |names|
        invariant Valid()
        invariant forall k :: k in old(seen) ==> k in seen && seen[k] == old(seen[k])
        invariant forall k :: k in seen && seen[k].None? ==> k in old(seen)
        invariant Nested(path0, rest)
        invariant Tracks(fs, path0, rest, path, names[i..], f0)
      {
        var name := names[i];
        ghost var left := names[i..];
        assert name in names && left[0] == name && left[1..] == names[i + 1..];
        if name == "" || name == "." {
          StepSkip(fs, path0, rest, path, left, f0);
          continue;
        }
        if name == ".." {
          StepUp(fs, path0, rest, path, left, f0);
          path := Parent(path);
          continue;
        }
        var newpath := Child(path, name);
        ParentOfChild(path, name);
        if newpath in seen {
          if seen[newpath].Some? {
            f0 := StepLink(fs, path0, rest, path, left, seen[newpath].value, f0);
            path := seen[newpath].value;
            continue;
          }
          assert old(seen)[newpath].None?;
          LoopDiverges(fs, path0, rest, path, left, f0);
          return SymlinkLoop(newpath);
        }
        match ReadLink(fs, newpath) {
          case Failure(errno) =>
            StepError(fs, path0, rest, path, left, f0);
            return OsError(errno);
          case NotALink =>
            StepInto(fs, path0, rest, path, left, f0);
            path := newpath;
          case Target(target) =>
            NestLink(path0, rest, path, left, f0);
            var resolved := ResolveLink(path, newpath, target);
            if !resolved.Resolved? {
              StepFail(fs, path0, rest, path, left, resolved, f0);
              return resolved;
            }
            f0 := StepLink(fs, path0, rest, path, left, resolved.path, f0);
            path := resolved.path;
        }
      }
      assert names[|names|..] == [];
      StepEnd(fs, path0, rest, path, f0);
      r := Resolved(path);
    }

    /** Mark the link as begun, resolve its target, remember the result. */
    method ResolveLink(path: string, newpath: string, target: string) returns (r: Outcome)
      requires Valid() && Nested(path, target)
      requires newpath !in seen && ReadLink(fs, newpath) == Target(target) && Parent(newpath) == path
      modifies this
      ensures Valid()
      ensures forall k :: k in old(seen) ==> k in seen && seen[k] == old(seen[k])
      ensures r.Resolved? ==> forall k :: k in seen && seen[k].None? ==> k in old(seen)
      ensures Agrees(fs, path, target, r)
      ensures r.Resolved? ==> Yields(fs, path, target, Done(r.path)) && Clean(fs, path, r.path)
      decreases fs.Keys - seen.Keys, 0
    {
      hide Walk, Resolution, Yields, Clean, Diverges, Parent, Agrees, Ends;
      assert newpath in fs.Keys - seen.Keys;
      seen := seen[newpath := None];
      r := ResolveText(path, target);
      if r.Resolved? {
        CleanStart(fs, path, target);
        RememberResolved(fs, path, target, r);
        seen := seen[newpath := Some(r.path)];
      }
    }

    /** A link met on the way is nested in whatever the whole is nested in. */
    lemma NestLink(path0: string, rest: string, path: string, names: seq<string>, f0: nat)
      requires Valid() && names != [] && Ordinary(names[0]) && IsLink(fs, Child(path, names[0]))
      requires Tracks(fs, path0, rest, path, names, f0)
      requires Nested(path0, rest)
      ensures Nested(path, fs[Child(path, names[0])].text)
    {
      hide Parent, Clean, Split;
      var text := fs[Child(path, names[0])].text;
      forall k, f: nat | k in seen && seen[k].None? && Ends(fs, Parent(k), fs[k].text, f)
        ensures Ends(fs, path, text, f)
      {
        assert Ends(fs, path0, rest, f);
        assert !Walk(fs, path, names, f).OutOfFuel?;
        assert f > 0 && !Resolution(fs, path, text, f - 1).OutOfFuel?;
        ResolutionMonotone(fs, path, text, f - 1, f);
      }
    }
  }

  lemma StepStart(fs: FileSystem, path0: string, text: string)
    ensures Tracks(fs, path0, text, Start(path0, text), Split(text, SEP)[0..], 0)
  {
    assert Split(text, SEP)[0..] == Split(text, SEP);
  }

  lemma StepSkip(fs: FileSystem, path0: string, text: string, path: string, names: seq<string>, f0: nat)
    requires Tracks(fs, path0, text, path, names, f0) && names != [] && (names[0] == "" || names[0] == ".")
    ensures Tracks(fs, path0, text, path, names[1..], f0)
  {
    forall f: nat ensures Walk(fs, path, names, f) == Walk(fs, path, names[1..], f) {}
  }

  lemma StepUp(fs: FileSystem, path0: string, text: string, path: string, names: seq<string>, f0: nat)
    requires Tracks(fs, path0, text, path, names, f0) && names != [] && names[0] == ".."
    ensures Tracks(fs, path0, text, Parent(path), names[1..], f0)
  {
    forall f: nat ensures Walk(fs, path, names, f) == Walk(fs, Parent(path), names[1..], f) {}
    if Real(fs, path) { RealParent(fs, path); }
  }

  lemma StepInto(fs: FileSystem, path0: string, text: string, path: string, names: seq<string>, f0: nat)
    requires Tracks(fs, path0, text, path, names, f0) && names != [] && Ordinary(names[0])
    requires ReadLink(fs, Child(path, names[0])).NotALink?
    ensures Tracks(fs, path0, text, Child(path, names[0]), names[1..], f0)
  {
    var next := Child(path, names[0]);
    forall f: nat ensures Walk(fs, path, names, f) == Walk(fs, next, names[1..], f) {}
    if LinkFree(fs, path) { LinkFreeChild(fs, path, names[0]); }
    if Real(fs, path) { RealChild(fs, path, names[0]); }
  }

  lemma StepError(fs: FileSystem, path0: string, text: string, path: string, names: seq<string>, f0: nat)
    requires Tracks(fs, path0, text, path, names, f0) && names != [] && Ordinary(names[0])
    requires ReadLink(fs, Child(path, names[0])).Failure?
    ensures Agrees(fs, path0, text, OsError(ReadLink(fs, Child(path, names[0])).errno))
  {
    assert Resolution(fs, path0, text, f0) == Walk(fs, path, names, f0);
  }

  lemma StepEnd(fs: FileSystem, path0: string, text: string, path: string, f0: nat)
    requires Tracks(fs, path0, text, path, [], f0)
    ensures Agrees(fs, path0, text, Resolved(path)) && Clean(fs, Start(path0, text), path)
  {
    assert Resolution(fs, path0, text, f0) == Walk(fs, path, [], f0);
  }

  lemma RememberResolved(fs: FileSystem, path: string, text: string, r: Outcome)
    requires r.Resolved? && Agrees(fs, path, text, r)
    ensures Yields(fs, path, text, Done(r.path))
  {
  }

  /** An absolute target starts from the root, which is clean; a relative one from where the link is. */
  lemma CleanStart(fs: FileSystem, path: string, text: string)
    ensures forall p :: Clean(fs, Start(path, text), p) ==> Clean(fs, path, p)
  {
  }

  /** A link whose resolution ended: continue from its result. */
  lemma StepLink(fs: FileSystem, path0: string, rest: string, path: string, names: seq<string>, p: string, f0: nat)
    returns (f1: nat)
    requires names != [] && Ordinary(names[0]) && IsLink(fs, Child(path, names[0]))
    requires Yields(fs, path, fs[Child(path, names[0])].text, Done(p)) && Clean(fs, path, p)
    requires Tracks(fs, path0, rest, path, names, f0)
    ensures Tracks(fs, path0, rest, p, names[1..], f1)
  {
    hide LinkFree, Real;
    var text := fs[Child(path, names[0])].text;
    var g: nat :| Resolution(fs, path, text, g) == Done(p);
    f1 := if f0 > g + 1 then f0 else g + 1;
    forall f: nat | f >= f1 ensures Resolution(fs, path0, rest, f) == Walk(fs, p, names[1..], f) {
      ResolutionMonotone(fs, path, text, g, f - 1);
      assert Resolution(fs, path0, rest, f) == Walk(fs, path, names, f);
    }
    forall f: nat | Ends(fs, path0, rest, f) ensures !Walk(fs, p, names[1..], f).OutOfFuel? {
      assert !Walk(fs, path, names, f).OutOfFuel?;
      var r := Resolution(fs, path, text, f - 1);
      assert Yields(fs, path, text, r);
      YieldsOne(fs, path, text, r, Done(p));
    }
  }

  /** A link that failed or diverged: so does the whole. */
  lemma StepFail(fs: FileSystem, path0: string, rest: string, path: string, names: seq<string>, r: Outcome, f0: nat)
    requires names != [] && Ordinary(names[0]) && IsLink(fs, Child(path, names[0]))
    requires !r.Resolved? && Agrees(fs, path, fs[Child(path, names[0])].text, r)
    requires Tracks(fs, path0, rest, path, names, f0)
    ensures Agrees(fs, path0, rest, r)
  {
    hide LinkFree, Real, Clean, Split, Start;
    var text := fs[Child(path, names[0])].text;
    if r.OsError? {
      var g: nat :| Resolution(fs, path, text, g) == Raised(r.errno);
      var f := if f0 > g + 1 then f0 else g + 1;
      ResolutionMonotone(fs, path, text, g, f - 1);
      assert Resolution(fs, path0, rest, f) == Raised(r.errno);
    } else {
      forall f: nat ensures Resolution(fs, path0, rest, f).OutOfFuel? {
        assert Walk(fs, path, names, f).OutOfFuel?;
      }
    }
  }

  /** Meeting a link in progress: plain resolution would need ever larger bounds. */
  lemma LoopDiverges(fs: FileSystem, path0: string, rest: string, path: string, names: seq<string>, f0: nat)
    requires names != [] && Ordinary(names[0]) && IsLink(fs, Child(path, names[0]))
    requires forall f: nat :: Ends(fs, path, fs[Child(path, names[0])].text, f) ==> Ends(fs, path0, rest, f)
    requires Tracks(fs, path0, rest, path, names, f0)
    ensures Diverges(fs, path0, rest)
    ensures forall at :: Agrees(fs, path0, rest, SymlinkLoop(at))
  {
    hide LinkFree, Real, Clean, Split, Start;
    forall f: nat ensures Resolution(fs, path0, rest, f).OutOfFuel? {
      if f > 0 { LoopDescends(fs, path0, rest, path, names, f0, f - 1); }
      assert Walk(fs, path, names, f).OutOfFuel?;
    }
  }

  lemma {:induction false} LoopDescends(fs: FileSystem, path0: string, rest: string, path: string, names: seq<string>, f0: nat, f: nat)
    requires names != [] && Ordinary(names[0]) && IsLink(fs, Child(path, names[0]))
    requires forall f: nat :: Ends(fs, path, fs[Child(path, names[0])].text, f) ==> Ends(fs, path0, rest, f)
    requires Tracks(fs, path0, rest, path, names, f0)
    ensures !Ends(fs, path, fs[Child(path, names[0])].text, f)
    decreases f
  {
    if f > 0 { LoopDescends(fs, path0, rest, path, names, f0, f - 1); }
    assert Walk(fs, path, names, f).OutOfFuel?;
  }

  /** The public entry: absolute paths start at the root, others in the working directory. */
  method Resolve(fs: FileSystem, cwd: string, text: string) returns (r: Outcome)
    ensures r.SymlinkLoop? <==> Diverges(fs, cwd, text)
    ensures forall e :: r == OsError(e) <==> Yields(fs, cwd, text, Raised(e))
    ensures forall p :: Yields(fs, cwd, text, Done(p)) ==> r == Resolved(if p == "" then [SEP] else p)
    ensures forall p :: Yields(fs, cwd, text, Done(p)) && LinkFree(fs, cwd) ==> LinkFree(fs, p)
    ensures forall p :: Yields(fs, cwd, text, Done(p)) && Real(fs, cwd) ==> Real(fs, p)
  {
    var base := if text != "" && text[0] == SEP then "" else cwd;
    hide Resolution, LinkFree, Real;
    var resolver := new Resolver(fs);
    SameBase(fs, base, cwd, text);
    r := resolver.ResolveText(base, text);
    ghost var plain := match r case Resolved(p) => Done(p) case OsError(e) => Raised(e) case SymlinkLoop(_) => OutOfFuel;
    forall s | Yields(fs, base, text, s) ensures s == plain {
      YieldsOne(fs, base, text, s, plain);
    }
    CleanStart(fs, cwd, text);
    if r.Resolved? {
      r := Resolved(if r.path == "" then [SEP] else r.path);
    }
  }

  lemma SameBase(fs: FileSystem, base: string, cwd: string, text: string)
    requires base == cwd || (text != "" && text[0] == SEP)
    ensures Diverges(fs, base, text) <==> Diverges(fs, cwd, text)
    ensures forall r :: Yields(fs, base, text, r) <==> Yields(fs, cwd, text, r)
  {
    forall f: nat ensures Resolution(fs, base, text, f) == Resolution(fs, cwd, text, f) { BaseOnly(fs, base, cwd, text, f); }
    hide Resolution;
  }

  lemma BaseOnly(fs: FileSystem, base: string, cwd: string, text: string, fuel: nat)
    requires base == cwd || (text != "" && text[0] == SEP)
    ensures Resolution(fs, base, text, fuel) == Resolution(fs, cwd, text, fuel)
  {
    hide Walk, Split;
  }

  // ----- the rules of resolution, text by text -----

  lemma ResolutionIs(fs: FileSystem, path: string, text: string, fuel: nat)
    ensures Resolution(fs, path, text, fuel) == Walk(fs, Start(path, text), Split(text, SEP), fuel)
  {
  }

  lemma {:induction false} WalkAppend(fs: FileSystem, path: string, xs: seq<string>, ys: seq<string>, fuel: nat)
    ensures Walk(fs, path, xs + ys, fuel) ==
      match Walk(fs, path, xs, fuel) case Done(p) => Walk(fs, p, ys, fuel) case other => other
    decreases |xs|
  {
    if xs == [] {
      assert xs + ys == ys;
    } else {
      var name, rest := xs[0], xs[1..];
      assert (xs + ys)[0] == name && (xs + ys)[1..] == rest + ys;
      if name == "" || name == "." {
        WalkAppend(fs, path, rest, ys, fuel);
      } else if name == ".." {
        WalkAppend(fs, Parent(path), rest, ys, fuel);
      } else {
        match ReadLink(fs, Child(path, name))
        case Failure(e) =>
        case NotALink => WalkAppend(fs, Child(path, name), rest, ys, fuel);
        case Target(text) =>
          if fuel > 0 && Resolution(fs, path, text, fuel - 1).Done? {
            WalkAppend(fs, Resolution(fs, path, text, fuel - 1).path, rest, ys, fuel);
          }
      }
    }
  }

  /** A leading separator means the root, wherever one is. */
  lemma AbsoluteFromRoot(fs: FileSystem, path: string, rest: string, fuel: nat)
    ensures Resolution(fs, path, [SEP] + rest, fuel) == Resolution(fs, "", rest, fuel)
  {
    var text := [SEP] + rest;
    ResolutionIs(fs, path, text, fuel);
    ResolutionIs(fs, "", rest, fuel);
    SplitFirst("", rest, SEP);
    assert "" + [SEP] + rest == text;
    SkipEmpty(fs, Split(rest, SEP), fuel);
    hide Walk, Split, Resolution;
  }

  lemma SkipEmpty(fs: FileSystem, pieces: seq<string>, fuel: nat)
    ensures Walk(fs, "", [""] + pieces, fuel) == Walk(fs, "", pieces, fuel)
  {
    assert ([""] + pieces)[1..] == pieces;
  }

  /** A relative text after a separator is resolved from where the text before it leads. */
  lemma InTwoSteps(fs: FileSystem, path: string, first: string, second: string, fuel: nat)
    requires second == "" || second[0] != SEP
    requires first != "" || path == ""
    ensures Resolution(fs, path, first + [SEP] + second, fuel) ==
      match Resolution(fs, path, first, fuel) case Done(p) => Resolution(fs, p, second, fuel) case other => other
  {
    var text := first + [SEP] + second;
    ResolutionIs(fs, path, text, fuel);
    ResolutionIs(fs, path, first, fuel);
    SplitTwo(first, second, SEP);
    assert Start(path, text) == Start(path, first) by {
      if first != "" { assert text[0] == first[0]; }
    }
    WalkAppend(fs, Start(path, text), Split(first, SEP), Split(second, SEP), fuel);
    var r := Resolution(fs, path, first, fuel);
    if r.Done? { ResolutionIs(fs, r.path, second, fuel); }
    hide Walk, Split, Resolution;
  }

  lemma WalkStays(fs: FileSystem, path: string, name: string, fuel: nat)
    requires name == "" || name == "."
    ensures Walk(fs, path, [name], fuel) == Done(path)
  {
    assert [name][1..] == [];
  }

  lemma WalkUp(fs: FileSystem, path: string, fuel: nat)
    ensures Walk(fs, path, [".."], fuel) == Done(Parent(path))
  {
    assert [".."][1..] == [];
  }

  /** Nothing, or a dot, leads nowhere else. */
  lemma StayingStep(fs: FileSystem, path: string, fuel: nat)
    ensures Resolution(fs, path, "", fuel) == Resolution(fs, path, ".", fuel) == Done(path)
  {
    SplitNone("", SEP);
    SplitNone(".", SEP);
    ResolutionIs(fs, path, "", fuel);
    ResolutionIs(fs, path, ".", fuel);
    WalkStays(fs, path, "", fuel);
    WalkStays(fs, path, ".", fuel);
  }

  /** Two dots cut off the last name; the root stays. */
  lemma UpStep(fs: FileSystem, path: string, name: string, fuel: nat)
    requires SEP !in name
    ensures Resolution(fs, path + [SEP] + name, "..", fuel) == Done(path)
    ensures Resolution(fs, name, "..", fuel) == Done("")
  {
    SplitNone("..", SEP);
    ResolutionIs(fs, path + [SEP] + name, "..", fuel);
    ResolutionIs(fs, name, "..", fuel);
    WalkUp(fs, path + [SEP] + name, fuel);
    WalkUp(fs, name, fuel);
    ParentOfChild(path, name);
    ParentOfName(name);
  }

  lemma {:induction false} ParentOfName(name: string)
    requires SEP !in name
    ensures Parent(name) == ""
  {
    if name != "" {
      var m := |name| - 1;
      assert name[m] in name && forall c :: c in name[..m] ==> c in name;
      ParentOfName(name[..m]);
    }
  }

  /** An ordinary name leads to the entry of that name, or, if that is a link, to where its target
      leads from here; what cannot be read is an error. */
  lemma NameStep(fs: FileSystem, path: string, name: string, fuel: nat)
    requires name != "" && name != "." && name != ".." && SEP !in name
    ensures var next := path + [SEP] + name;
      Resolution(fs, path, name, fuel) ==
      if next !in fs then Raised(ENOENT)
      else
        match fs[next]
        case Failure(e) => Raised(e)
        case NotALink => Done(next)
        case Target(text) => if fuel == 0 then OutOfFuel else Resolution(fs, path, text, fuel - 1)
  {
    assert name[0] in name;
    SplitNone(name, SEP);
    assert [name][1..] == [];
    ResolutionIs(fs, path, name, fuel);
    hide Split;
  }

  // ----- resolved and relative paths -----

  /** From a directory without links, a relative text resolves as the directory's own text joined
      with it resolves from the root. */
  lemma RelativeIsJoined(fs: FileSystem, cwd: string, text: string, fuel: nat)
    requires Real(fs, cwd) && (text == "" || text[0] != SEP)
    ensures Resolution(fs, cwd, text, fuel) == Resolution(fs, "", Child(cwd, text), fuel)
  {
    hide Real, RealAll, Walk, Resolution, Split, Start, PathOf, Ordinary;
    var names := RealNames(fs, cwd);
    var pieces := Split(text, SEP);
    ResolutionIs(fs, cwd, text, fuel);
    ResolutionIs(fs, "", Child(cwd, text), fuel);
    StartsEmpty(Child(cwd, text));
    StartsThere(cwd, text);
    RealSplit(fs, names);
    RealWalk(fs, names, pieces, fuel);
    SplitTwo(cwd, text, SEP);
    assert [""] + names + pieces == [""] + (names + pieces);
  }

  /** From the working directory `/`, whose text ends in a separator, it does not: the result
      starts with two. */
  lemma RootAsDirectory(fs: FileSystem, name: string, fuel: nat)
    requires Ordinary(name) && ReadLink(fs, "//" + name).NotALink? && ReadLink(fs, "/" + name).NotALink?
    ensures Resolution(fs, "/", name, fuel) == Done("//" + name)
    ensures Resolution(fs, "", "/" + name, fuel) == Done("/" + name)
  {
    hide Split, Walk, Real;
    assert name[0] in name;
    SplitNone(name, SEP);
    assert [name][1..] == [] && Child("/", name) == "//" + name && Child("", name) == "/" + name;
    WalkInto(fs, "/", name, fuel);
    RealEmpty(fs);
    RealChild(fs, "", name);
    RealIsFixed(fs, "", "/" + name, fuel);
  }

  lemma StartsEmpty(text: string)
    ensures Start("", text) == ""
  {
  }

  lemma StartsThere(path: string, text: string)
    requires text == "" || text[0] != SEP
    ensures Start(path, text) == path
  {
  }

  lemma WalkInto(fs: FileSystem, path: string, name: string, fuel: nat)
    requires Ordinary(name) && ReadLink(fs, Child(path, name)).NotALink?
    ensures Walk(fs, path, [name], fuel) == Done(Child(path, name))
  {
    assert [name][1..] == [];
  }

  lemma RealEmpty(fs: FileSystem)
    ensures Real(fs, "")
  {
  }

  /** A fully resolved path resolves to itself, from every directory: resolution is idempotent. */
  lemma RealIsFixed(fs: FileSystem, dir: string, path: string, fuel: nat)
    requires Real(fs, path) && (path != "" || dir == "")
    ensures Resolution(fs, dir, path, fuel) == Done(path)
  {
    var names := RealNames(fs, path);
    RealSplit(fs, names);
    RealWalk(fs, names, [], fuel);
    assert names + [] == names;
    BaseOnly(fs, dir, "", path, fuel);
  }

  /** The text of the names under the root. */
  function PathOf(names: seq<string>): string {
    if names == [] then "" else Child(PathOf(names[..|names| - 1]), names[|names| - 1])
  }

  ghost predicate RealAll(fs: FileSystem, names: seq<string>) {
    forall i :: 0 <= i < |names| ==> Ordinary(names[i]) && ReadLink(fs, PathOf(names[..i + 1])).NotALink?
  }

  lemma {:induction false} RealNames(fs: FileSystem, path: string) returns (names: seq<string>)
    requires Real(fs, path)
    ensures PathOf(names) == path && RealAll(fs, names)
    decreases |path|
  {
    if path == "" {
      names := [];
    } else {
      var name: string :| Ordinary(name) && |name| < |path| && path == Child(path[..|path| - |name| - 1], name)
        && ReadLink(fs, path).NotALink? && Real(fs, path[..|path| - |name| - 1]);
      var front := RealNames(fs, path[..|path| - |name| - 1]);
      names := front + [name];
      RealAllAppend(fs, front, name);
    }
  }

  lemma RealAllAppend(fs: FileSystem, front: seq<string>, name: string)
    requires RealAll(fs, front) && Ordinary(name) && ReadLink(fs, Child(PathOf(front), name)).NotALink?
    ensures RealAll(fs, front + [name]) && PathOf(front + [name]) == Child(PathOf(front), name)
  {
    var names := front + [name];
    assert names[..|front|] == front;
    forall i | 0 <= i < |names| ensures Ordinary(names[i]) && ReadLink(fs, PathOf(names[..i + 1])).NotALink? {
      if i < |front| { assert names[..i + 1] == front[..i + 1]; } else { assert names[..i + 1] == names; }
    }
  }

  lemma {:induction false} RealWalkFrom(fs: FileSystem, names: seq<string>, i: nat, rest: seq<string>, fuel: nat)
    requires RealAll(fs, names) && i <= |names|
    ensures Walk(fs, PathOf(names[..i]), names[i..] + rest, fuel) == Walk(fs, PathOf(names), rest, fuel)
    decreases |names| - i
  {
    if i < |names| {
      RealWalkFrom(fs, names, i + 1, rest, fuel);
      assert (names[i..] + rest)[1..] == names[i + 1..] + rest;
      assert names[..i + 1][..i] == names[..i];
    } else {
      assert names[..i] == names && names[i..] + rest == rest;
    }
  }

  /** Walking down existing names from the root arrives below them. */
  lemma RealWalk(fs: FileSystem, names: seq<string>, rest: seq<string>, fuel: nat)
    requires RealAll(fs, names)
    ensures Walk(fs, "", [""] + (names + rest), fuel) == Walk(fs, PathOf(names), rest, fuel)
  {
    RealWalkFrom(fs, names, 0, rest, fuel);
    assert names[..0] == [] && names[0..] == names;
    assert ([""] + (names + rest))[1..] == names + rest;
  }

  lemma RealSplit(fs: FileSystem, names: seq<string>)
    requires RealAll(fs, names)
    ensures Split(PathOf(names), SEP) == [""] + names
    ensures PathOf(names) == "" || PathOf(names)[0] == SEP
  {
    if names != [] { AbsoluteSplit(names); }
  }

  lemma {:induction false} AbsoluteSplit(names: seq<string>)
    requires names != [] && forall n :: n in names ==> Ordinary(n)
    ensures Split(PathOf(names), SEP) == [""] + names
    ensures PathOf(names) != "" && PathOf(names)[0] == SEP
  {
    var n := |names| - 1;
    if n > 0 {
      assert forall m :: m in names[..n] ==> m in names;
      AbsoluteSplit(names[..n]);
      assert names[n] in names;
      SplitTwo(PathOf(names[..n]), names[n], SEP);
      SplitNone(names[n], SEP);
      assert names == names[..n] + [names[n]];
    } else {
      assert names[0] in names;
      SplitTwo("", names[0], SEP);
      SplitNone(names[0], SEP);
      assert PathOf(names[..0]) == "";
    }
  }
}
