/** JSON diff and patch on documents of nested objects (section 4 of RFC 6902): exactly when applying
    the diff of two documents to the first gives the second, in any iteration order of the keys. */
module JsonPatch {
  import opened Results
  import opened Strings
  import opened JsonPointer

  datatype Scalar = Null | Bool(b: bool) | Int(n: int) | Float(r: real) | Text(s: string)

  datatype Doc = Leaf(scalar: Scalar) | Object(fields: map<string, Doc>)

  datatype PatchError = Conflict | TypeMismatch | BadPointer(error: PointerError)

  datatype Op = Remove(path: string) | Add(path: string, value: Doc) | Replace(path: string, value: Doc)

  // ----- the host's equality -----

  function Number(s: Scalar): real
    requires s.Bool? || s.Int? || s.Float?
  {
    match s
    case Bool(b) => if b then 1.0 else 0.0
    case Int(n) => n as real
    case Float(r) => r
  }

  /** `==` on scalars: booleans and numbers compare by value. */
  predicate ScalarEq(s: Scalar, t: Scalar) {
    if (s.Bool? || s.Int? || s.Float?) && (t.Bool? || t.Int? || t.Float?) then Number(s) == Number(t) else s == t
  }

  /** `==` on documents. */
  predicate DocEq(a: Doc, b: Doc) {
    match (a, b)
    case (Leaf(s), Leaf(t)) => ScalarEq(s, t)
    case (Object(f), Object(g)) => f.Keys == g.Keys && forall k :: k in f.Keys ==> DocEq(f[k], g[k])
    case _ => false
  }

  lemma {:induction false} DocEqReflexive(a: Doc)
    ensures DocEq(a, a)
  {
    if a.Object? {
      forall k | k in a.fields.Keys ensures DocEq(a.fields[k], a.fields[k]) { DocEqReflexive(a.fields[k]); }
    }
  }

  // ----- applying operations -----

  /** Walk to the place the parts name and act there; `to_last` stops one step short of the end. */
  function ApplyAt(d: Doc, parts: seq<string>, op: Op): Result<Doc, PatchError>
    decreases |parts|
  {
    if parts == [] then ApplyRoot(d, op)
    else if |parts| == 1 then ApplyMember(d, parts[0], op)
    else if d.Leaf? then Err(BadPointer(NotIndexable))
    else if parts[0] !in d.fields then Err(BadPointer(MemberNotFound))
    else
      match ApplyAt(d.fields[parts[0]], parts[1..], op)
      case Err(e) => Err(e)
      case Ok(sub) => Ok(Object(d.fields[parts[0] := sub]))
  }

  /** An operation on the whole document. */
  function ApplyRoot(d: Doc, op: Op): Result<Doc, PatchError> {
    match op
    case Remove(_) => Err(if d.Object? then Conflict else TypeMismatch)
    case Add(_, v) => if d.Object? then Ok(v) else Err(TypeMismatch)
    case Replace(_, v) => Ok(v)
  }

  /** An operation on one member. */
  function ApplyMember(d: Doc, key: string, op: Op): Result<Doc, PatchError> {
    if d.Leaf? then Err(BadPointer(NotIndexable))
    else
      match op
      case Remove(_) => if key in d.fields then Ok(Object(d.fields - {key})) else Err(Conflict)
      case Add(_, v) => Ok(Object(d.fields[key := v]))
      case Replace(_, v) => if key in d.fields then Ok(Object(d.fields[key := v])) else Err(Conflict)
  }

  function Apply(d: Doc, op: Op): Result<Doc, PatchError> {
    match Parse(op.path)
    case Err(e) => Err(BadPointer(e))
    case Ok(parts) => ApplyAt(d, parts, op)
  }

  function ApplyAll(d: Doc, ops: seq<Op>): Result<Doc, PatchError>
    decreases |ops|
  {
    if ops == [] then Ok(d)
    else
      match Apply(d, ops[0])
      case Err(e) => Err(e)
      case Ok(next) => ApplyAll(next, ops[1..])
  }

  lemma {:induction false} ApplyAppend(d: Doc, first: seq<Op>, second: seq<Op>)
    ensures ApplyAll(d, first + second) ==
      match ApplyAll(d, first) case Err(e) => Err(e) case Ok(mid) => ApplyAll(mid, second)
    decreases |first|
  {
    if first == [] {
      assert first + second == second;
    } else {
      assert (first + second)[1..] == first[1..] + second && (first + second)[0] == first[0];
      var r := Apply(d, first[0]);
      if r.Ok? { ApplyAppend(r.value, first[1..], second); }
    }
  }

  // ----- places in a document -----

  function Get(d: Doc, path: seq<string>): Option<Doc>
    decreases |path|
  {
    if path == [] then Some(d)
    else if d.Object? && path[0] in d.fields then Get(d.fields[path[0]], path[1..])
    else None
  }

  lemma GetKey(d: Doc, key: string)
    ensures Get(d, [key]) == if d.Object? && key in d.fields then Some(d.fields[key]) else None
  {
    var path := [key];
    assert path[0] == key && path[1..] == [];
  }

  /** The document with the part at `path` exchanged. */
  function Put(d: Doc, path: seq<string>, v: Doc): Doc
    requires Get(d, path).Some?
    decreases |path|
  {
    if path == [] then v else Object(d.fields[path[0] := Put(d.fields[path[0]], path[1..], v)])
  }

  lemma {:induction false} GetPut(d: Doc, path: seq<string>, v: Doc, rest: seq<string>)
    requires Get(d, path).Some?
    ensures Get(Put(d, path, v), path + rest) == Get(v, rest)
    decreases |path|
  {
    if path == [] {
      assert path + rest == rest;
    } else {
      GetPut(d.fields[path[0]], path[1..], v, rest);
      assert (path + rest)[1..] == path[1..] + rest;
    }
  }

  lemma {:induction false} PutPut(d: Doc, path: seq<string>, v: Doc, rest: seq<string>, u: Doc)
    requires Get(d, path).Some? && Get(v, rest).Some?
    ensures Get(Put(d, path, v), path + rest).Some?
    ensures Put(Put(d, path, v), path + rest, u) == Put(d, path, Put(v, rest, u))
    decreases |path|
  {
    GetPut(d, path, v, rest);
    if path == [] {
      assert path + rest == rest;
    } else {
      PutPut(d.fields[path[0]], path[1..], v, rest, u);
      assert (path + rest)[1..] == path[1..] + rest;
      var f := d.fields[path[0] := Put(d.fields[path[0]], path[1..], v)];
      assert f[path[0] := Put(f[path[0]], path[1..] + rest, u)] ==
             d.fields[path[0] := Put(d.fields[path[0]], path[1..], Put(v, rest, u))];
    }
  }

  lemma {:induction false} PutSame(d: Doc, path: seq<string>)
    requires Get(d, path).Some?
    ensures Put(d, path, Get(d, path).value) == d
    decreases |path|
  {
    if path != [] {
      PutSame(d.fields[path[0]], path[1..]);
      assert d.fields[path[0] := d.fields[path[0]]] == d.fields;
    }
  }

  /** Acting on a member of the object at `path`. */
  lemma {:induction false} ApplyUnder(d: Doc, path: seq<string>, key: string, op: Op)
    requires Get(d, path).Some?
    ensures ApplyAt(d, path + [key], op) ==
      match ApplyMember(Get(d, path).value, key, op) case Err(e) => Err(e) case Ok(v) => Ok(Put(d, path, v))
    decreases |path|
  {
    if path == [] {
      assert path + [key] == [key];
    } else {
      assert (path + [key])[1..] == path[1..] + [key];
      ApplyUnder(d.fields[path[0]], path[1..], key, op);
    }
  }

  /** When an operation below the root succeeds, and what is then at its path. */
  lemma {:induction false} ApplyExact(d: Doc, parts: seq<string>, op: Op)
    requires parts != []
    ensures var parent, key, r := Get(d, parts[..|parts| - 1]), parts[|parts| - 1], ApplyAt(d, parts, op);
      && (r.Ok? <==> parent.Some? && parent.value.Object? && (op.Add? || key in parent.value.fields))
      && (r.Ok? ==> Get(r.value, parts) == if op.Remove? then None else Some(op.value))
    decreases |parts|
  {
    var front := parts[..|parts| - 1];
    if |parts| == 1 {
      assert front == [] && parts[1..] == [];
    } else {
      assert front[0] == parts[0] && front[1..] == parts[1..][..|parts| - 2];
      if d.Object? && parts[0] in d.fields { ApplyExact(d.fields[parts[0]], parts[1..], op); }
    }
  }

  /** Replacing the document, or the part, at `path`. */
  lemma ReplaceAt(d: Doc, path: seq<string>, text: string, v: Doc)
    requires Get(d, path).Some?
    ensures ApplyAt(d, path, Replace(text, v)) == Ok(Put(d, path, v))
  {
    if path != [] {
      var n := |path| - 1;
      var front, key := path[..n], path[n];
      assert path == front + [key];
      GetFront(d, front, key);
      ApplyUnder(d, front, key, Replace(text, v));
      var parent := Get(d, front).value;
      PutPut(d, front, parent, [key], v);
      PutSame(d, front);
      assert Put(parent, [key], v) == Object(parent.fields[key := v]) by {
        assert [key][1..] == [];
      }
    }
  }

  lemma {:induction false} GetFront(d: Doc, front: seq<string>, key: string)
    requires Get(d, front + [key]).Some?
    ensures Get(d, front).Some? && Get(d, front).value.Object? && key in Get(d, front).value.fields
    ensures Get(d, front + [key]) == Some(Get(d, front).value.fields[key])
    decreases |front|
  {
    var path := front + [key];
    if front == [] {
      assert path == [key] && path[1..] == [];
    } else {
      assert path[1..] == front[1..] + [key];
      GetFront(d.fields[front[0]], front[1..], key);
    }
  }

  // ----- the diff -----

  /** What applying the diff of `src` and `dst` makes of `src`: whatever compared equal stays as it was. */
  function Patched(src: Doc, dst: Doc): Doc {
    if DocEq(src, dst) then src
    else if src.Object? && dst.Object? then
      Object(map k | k in dst.fields.Keys :: if k in src.fields then Patched(src.fields[k], dst.fields[k]) else dst.fields[k])
    else dst
  }

  /** The result equals the target, as the host compares documents. */
  lemma {:induction false} PatchedEquals(src: Doc, dst: Doc)
    ensures DocEq(Patched(src, dst), dst)
  {
    if !DocEq(src, dst) {
      if src.Object? && dst.Object? {
        forall k | k in dst.fields.Keys ensures DocEq(Patched(src, dst).fields[k], dst.fields[k]) {
          if k in src.fields { PatchedEquals(src.fields[k], dst.fields[k]); } else { DocEqReflexive(dst.fields[k]); }
        }
      } else {
        DocEqReflexive(dst);
      }
    }
  }

  /** At this path both documents hold scalars that compare equal without being identical. */
  predicate Confused(src: Doc, dst: Doc, path: seq<string>) {
    var a, b := Get(src, path), Get(dst, path);
    && a.Some? && b.Some? && a.value.Leaf? && b.value.Leaf?
    && ScalarEq(a.value.scalar, b.value.scalar) && a.value.scalar != b.value.scalar
  }

  ghost predicate NoneConfused(src: Doc, dst: Doc) {
    forall path :: !Confused(src, dst, path)
  }

  lemma ConfusedInside(src: Doc, dst: Doc)
    requires src.Object? && dst.Object?
    ensures NoneConfused(src, dst) <==>
      forall k :: k in src.fields.Keys && k in dst.fields.Keys ==> NoneConfused(src.fields[k], dst.fields[k])
  {
    if NoneConfused(src, dst) {
      forall k, path | k in src.fields.Keys && k in dst.fields.Keys ensures !Confused(src.fields[k], dst.fields[k], path) {
        assert !Confused(src, dst, [k] + path);
        assert ([k] + path)[1..] == path;
      }
    } else {
      var path :| Confused(src, dst, path);
      assert Confused(src.fields[path[0]], dst.fields[path[0]], path[1..]);
    }
  }

  /** The result is the target itself exactly when no scalar of the one document meets, at its
      path, an equal scalar of another type in the other document. */
  lemma {:induction false} PatchedExact(src: Doc, dst: Doc)
    ensures Patched(src, dst) == dst <==> NoneConfused(src, dst)
  {
    if src.Object? && dst.Object? {
      ConfusedInside(src, dst);
      var p := Patched(src, dst);
      hide NoneConfused;
      forall k | k in src.fields.Keys && k in dst.fields.Keys
        ensures Patched(src.fields[k], dst.fields[k]) == dst.fields[k] <==> NoneConfused(src.fields[k], dst.fields[k])
      {
        PatchedExact(src.fields[k], dst.fields[k]);
      }
      if DocEq(src, dst) {
        assert forall k :: k in dst.fields.Keys ==> DocEq(src.fields[k], dst.fields[k]);
        assert src.fields.Keys == dst.fields.Keys;
        if NoneConfused(src, dst) {
          assert forall k :: k in dst.fields.Keys ==> src.fields[k] == dst.fields[k];
          assert src.fields == dst.fields;
        }
      } else {
        assert forall k :: k in dst.fields.Keys ==>
          p.fields[k] == (if k in src.fields then Patched(src.fields[k], dst.fields[k]) else dst.fields[k]);
        if NoneConfused(src, dst) {
          assert p.fields == dst.fields;
        }
      }
    } else if src.Leaf? && dst.Leaf? {
      assert Get(src, []) == Some(src) && Get(dst, []) == Some(dst);
      assert Confused(src, dst, []) <==> ScalarEq(src.scalar, dst.scalar) && src.scalar != dst.scalar;
    }
  }

  // ----- the paths a diff names -----

  /** The diff has an operation at this path: the documents differ there, and everywhere above it
      both hold objects. */
  predicate Named(src: Doc, dst: Doc, path: seq<string>)
    decreases |path|
  {
    && !DocEq(src, dst)
    && if !src.Object? || !dst.Object? then path == []
       else if path == [] then false
       else if path[0] in src.fields && path[0] in dst.fields then
         Named(src.fields[path[0]], dst.fields[path[0]], path[1..])
       else |path| == 1 && (path[0] in src.fields || path[0] in dst.fields)
  }

  /** No part of a path that the diff names holds a percent escape. */
  ghost predicate CleanDiff(src: Doc, dst: Doc) {
    forall path :: Named(src, dst, path) ==> Clean(path)
  }

  /** The operation due at a path the diff names; the documents are those found at `base`. */
  function OpFor(base: seq<string>, src: Doc, dst: Doc, path: seq<string>): Op {
    var text := PointerTo(base + path);
    match (Get(src, path), Get(dst, path))
    case (_, None) => Remove(text)
    case (None, Some(v)) => Add(text, v)
    case (Some(_), Some(v)) => Replace(text, v)
  }

  /** The operations are those due at the named paths that start with one of the keys. */
  ghost predicate Listed(base: seq<string>, src: Doc, dst: Doc, keys: set<string>, ops: seq<Op>) {
    && (forall op :: op in ops ==>
          exists path :: Named(src, dst, path) && path != [] && path[0] in keys && op == OpFor(base, src, dst, path))
    && (forall path :: Named(src, dst, path) && path != [] && path[0] in keys ==> OpFor(base, src, dst, path) in ops)
  }

  /** The operations are those due at the named paths, in some order. */
  ghost predicate Lists(base: seq<string>, src: Doc, dst: Doc, ops: seq<Op>) {
    && (forall op :: op in ops ==> exists path :: Named(src, dst, path) && op == OpFor(base, src, dst, path))
    && (forall path :: Named(src, dst, path) ==> OpFor(base, src, dst, path) in ops)
  }

  lemma ListedMore(base: seq<string>, src: Doc, dst: Doc, keys: set<string>, ops: seq<Op>, key: string, more: seq<Op>)
    requires Listed(base, src, dst, keys, ops) && Listed(base, src, dst, {key}, more)
    ensures Listed(base, src, dst, keys + {key}, ops + more)
  {
    hide Named, OpFor;
    forall path | Named(src, dst, path) && path != [] && path[0] in keys + {key}
      ensures OpFor(base, src, dst, path) in ops + more
    {
      if path[0] in keys { assert OpFor(base, src, dst, path) in ops; } else { assert OpFor(base, src, dst, path) in more; }
    }
  }

  lemma NamedStart(src: Doc, dst: Doc)
    requires src.Object? && dst.Object?
    ensures forall path :: Named(src, dst, path) ==> path != [] && path[0] in src.fields.Keys + dst.fields.Keys
  {
  }

  lemma ListedAll(base: seq<string>, src: Doc, dst: Doc, keys: set<string>, ops: seq<Op>)
    requires src.Object? && dst.Object? && keys == src.fields.Keys + dst.fields.Keys
    requires Listed(base, src, dst, keys, ops)
    ensures Lists(base, src, dst, ops)
  {
    NamedStart(src, dst);
    hide OpFor, Named;
  }

  /** A key of one document only. */
  lemma ListedSingle(base: seq<string>, src: Doc, dst: Doc, key: string)
    requires src.Object? && dst.Object? && !DocEq(src, dst) && (key in src.fields) != (key in dst.fields)
    ensures Named(src, dst, [key])
    ensures Listed(base, src, dst, {key}, [OpFor(base, src, dst, [key])])
  {
    hide OpFor;
    forall path | Named(src, dst, path) && path[0] == key ensures path == [key] {}
  }

  lemma NamedInside(base: seq<string>, src: Doc, dst: Doc, key: string, path: seq<string>)
    requires src.Object? && dst.Object? && !DocEq(src, dst) && key in src.fields && key in dst.fields
    ensures Named(src, dst, [key] + path) <==> Named(src.fields[key], dst.fields[key], path)
    ensures OpFor(base, src, dst, [key] + path) == OpFor(base + [key], src.fields[key], dst.fields[key], path)
  {
    assert ([key] + path)[1..] == path && base + ([key] + path) == base + [key] + path;
  }

  /** A key of both. */
  lemma ListedInside(base: seq<string>, src: Doc, dst: Doc, key: string, more: seq<Op>)
    requires src.Object? && dst.Object? && !DocEq(src, dst) && key in src.fields && key in dst.fields
    requires Lists(base + [key], src.fields[key], dst.fields[key], more)
    ensures Listed(base, src, dst, {key}, more)
  {
    var a, b := src.fields[key], dst.fields[key];
    hide OpFor, Named;
    forall path
      ensures Named(src, dst, [key] + path) <==> Named(a, b, path)
      ensures OpFor(base, src, dst, [key] + path) == OpFor(base + [key], a, b, path)
    {
      NamedInside(base, src, dst, key, path);
    }
    forall op | op in more
      ensures exists path :: Named(src, dst, path) && path != [] && path[0] in {key} && op == OpFor(base, src, dst, path)
    {
      var path :| Named(a, b, path) && op == OpFor(base + [key], a, b, path);
      assert Named(src, dst, [key] + path) && op == OpFor(base, src, dst, [key] + path);
    }
    forall path | Named(src, dst, path) && path != [] && path[0] == key ensures OpFor(base, src, dst, path) in more {
      assert path == [key] + path[1..];
    }
  }

  /** Documents that are not equal differ at some path. */
  lemma {:induction false} SomeNamed(src: Doc, dst: Doc) returns (path: seq<string>)
    requires !DocEq(src, dst)
    ensures Named(src, dst, path)
  {
    if src.Object? && dst.Object? {
      if key :| key in src.fields.Keys && key in dst.fields.Keys && !DocEq(src.fields[key], dst.fields[key]) {
        path := SomeNamed(src.fields[key], dst.fields[key]);
        assert ([key] + path)[1..] == path;
        path := [key] + path;
      } else {
        assert src.fields.Keys != dst.fields.Keys;
        var key :| (key in src.fields.Keys) != (key in dst.fields.Keys);
        path := [key];
      }
    } else {
      path := [];
    }
  }

  /** There are no operations exactly when the documents are equal. */
  lemma NothingListed(base: seq<string>, src: Doc, dst: Doc, ops: seq<Op>)
    requires Lists(base, src, dst, ops)
    ensures ops == [] <==> DocEq(src, dst)
  {
    hide OpFor;
    assert ops == [] || ops[0] in ops;
    if DocEq(src, dst) {
      assert forall op :: op !in ops;
    } else {
      var path := SomeNamed(src, dst);
      assert OpFor(base, src, dst, path) in ops;
    }
  }

  lemma CleanInside(src: Doc, dst: Doc, key: string)
    requires src.Object? && dst.Object? && !DocEq(src, dst) && CleanDiff(src, dst)
    ensures key in src.fields && key in dst.fields ==> CleanDiff(src.fields[key], dst.fields[key])
    ensures (key in src.fields) != (key in dst.fields) ==> !HasEscape(key)
    ensures key in src.fields && key in dst.fields && !DocEq(src.fields[key], dst.fields[key]) ==> !HasEscape(key)
  {
    hide HasEscape, Named, OpFor, DocEq;
    if key in src.fields && key in dst.fields {
      forall path | Named(src.fields[key], dst.fields[key], path) ensures Clean(path) && !HasEscape(key) {
        NamedInside([], src, dst, key, path);
        CleanCons(key, path);
      }
      if !DocEq(src.fields[key], dst.fields[key]) { var path := SomeNamed(src.fields[key], dst.fields[key]); }
    } else if (key in src.fields) != (key in dst.fields) {
      ListedSingle([], src, dst, key);
      CleanCons(key, []);
    }
  }

  lemma CleanCons(key: string, path: seq<string>)
    ensures Clean([key] + path) <==> !HasEscape(key) && Clean(path)
  {
    hide HasEscape;
    var longer := [key] + path;
    assert longer[0] == key && forall i :: 0 <= i < |path| ==> path[i] == longer[i + 1];
  }

  /** Applied to any document that has `src` at `path`, the operations exchange it for `result`. */
  ghost predicate Turns(path: seq<string>, src: Doc, ops: seq<Op>, result: Doc) {
    forall d: Doc :: Get(d, path) == Some(src) ==> ApplyAll(d, ops) == Ok(Put(d, path, result))
  }

  lemma TurnsNothing(path: seq<string>, src: Doc)
    ensures Turns(path, src, [], src)
  {
    forall d: Doc | Get(d, path) == Some(src) ensures ApplyAll(d, []) == Ok(Put(d, path, src)) { PutSame(d, path); }
  }

  lemma ApplyOne(d: Doc, op: Op)
    ensures ApplyAll(d, [op]) == Apply(d, op)
  {
    assert [op][1..] == [];
  }

  lemma TurnsReplace(path: seq<string>, src: Doc, v: Doc)
    requires Clean(path)
    ensures Turns(path, src, [Replace(PointerTo(path), v)], v)
  {
    var op := Replace(PointerTo(path), v);
    PointerLands(path);
    forall d: Doc | Get(d, path) == Some(src) ensures ApplyAll(d, [op]) == Ok(Put(d, path, v)) {
      ApplyOne(d, op);
      ReplaceAt(d, path, PointerTo(path), v);
    }
  }

  /** One operation on a member of the object at `path`. */
  lemma TurnsMember(path: seq<string>, src: Doc, key: string, op: Op, v: Doc)
    requires Clean(path) && !HasEscape(key) && op.path == PointerTo(path + [key])
    requires ApplyMember(src, key, op) == Ok(v)
    ensures Turns(path, src, [op], v)
  {
    PointerLands(path + [key]);
    forall d: Doc | Get(d, path) == Some(src) ensures ApplyAll(d, [op]) == Ok(Put(d, path, v)) {
      ApplyOne(d, op);
      ApplyUnder(d, path, key, op);
    }
  }

  lemma TurnsThen(path: seq<string>, src: Doc, first: seq<Op>, mid: Doc, second: seq<Op>, result: Doc)
    requires Turns(path, src, first, mid) && Turns(path, mid, second, result)
    ensures Turns(path, src, first + second, result)
  {
    forall d: Doc | Get(d, path) == Some(src) ensures ApplyAll(d, first + second) == Ok(Put(d, path, result)) {
      ApplyAppend(d, first, second);
      GetPut(d, path, mid, []);
      assert path + [] == path;
      PutPut(d, path, mid, [], result);
    }
  }

  /** Operations on a member's value are operations on the object. */
  lemma TurnsInside(path: seq<string>, src: Doc, key: string, ops: seq<Op>, v: Doc)
    requires src.Object? && key in src.fields && Turns(path + [key], src.fields[key], ops, v)
    ensures Turns(path, src, ops, Object(src.fields[key := v]))
  {
    forall d: Doc | Get(d, path) == Some(src) ensures ApplyAll(d, ops) == Ok(Put(d, path, Object(src.fields[key := v]))) {
      PutSame(d, path);
      GetPut(d, path, src, [key]);
      assert [key][1..] == [];
      PutPut(d, path, src, [key], v);
    }
  }

  /** Compare two values: nothing when equal, key by key for two objects, else one replacement. */
  method CompareValues(path: seq<string>, value: Doc, other: Doc) returns (ops: seq<Op>)
    ensures Lists(path, value, other, ops)
    ensures Clean(path) && CleanDiff(value, other) ==> Turns(path, value, ops, Patched(value, other))
    decreases value, 1
  {
    hide Turns, ApplyAll;
    if DocEq(value, other) {
      TurnsNothing(path, value);
      return [];
    }
    if value.Object? && other.Object? {
      ops := CompareObjects(path, value, other);
    } else {
      if Clean(path) { TurnsReplace(path, value, other); }
      ops := [Replace(PointerTo(path), other)];
      assert path + [] == path;
      assert Named(value, other, []) && ops[0] == OpFor(path, value, other, []);
    }
  }

  /** The object so far: the keys of `src` in `done` have been dealt with, those of `dst` in `added` have been added. */
  function Mixed(src: map<string, Doc>, dst: map<string, Doc>, done: set<string>, added: set<string>): map<string, Doc> {
    map k | k in src.Keys + dst.Keys && (if k in src then k in dst || k !in done else k in added) ::
      if k !in src then dst[k] else if k in done then Patched(src[k], dst[k]) else src[k]
  }

  /** Two passes over the keys, each in whatever order the dictionaries iterate. */
  method CompareObjects(path: seq<string>, src: Doc, dst: Doc) returns (ops: seq<Op>)
    requires src.Object? && dst.Object? && !DocEq(src, dst)
    ensures Lists(path, src, dst, ops)
    ensures Clean(path) && CleanDiff(src, dst) ==> Turns(path, src, ops, Patched(src, dst))
    decreases src, 0
  {
    hide Turns, ApplyAll, Patched, Listed, Lists, CleanDiff, OpFor, Named, DocEq;
    ops := [];
    var f, g := src.fields, dst.fields;
    ghost var clean := Clean(path) && CleanDiff(src, dst);
    var done, added: set<string> := {}, {};
    StartOf(path, src, dst);
    while done != f.Keys
      invariant done <= f.Keys
      invariant Listed(path, src, dst, done, ops)
      invariant clean ==> Turns(path, src, ops, Object(Mixed(f, g, done, {})))
      decreases f.Keys - done
    {
      assert f.Keys == done + (f.Keys - done);
      var key :| key in f.Keys - done;
      var more: seq<Op>;
      if key !in g {
        more := [Remove(PointerTo(path + [key]))];
        RemoveStep(path, src, dst, done, key);
      } else {
        more := CompareValues(path + [key], f[key], g[key]);
        InsideStep(path, src, dst, done, key, more);
      }
      ListedMore(path, src, dst, done, ops, key, more);
      if clean { TurnsThen(path, src, ops, Object(Mixed(f, g, done, {})), more, Object(Mixed(f, g, done + {key}, {}))); }
      ops := ops + more;
      done := done + {key};
    }
    assert done + added == done;
    while added != g.Keys - f.Keys
      invariant added <= g.Keys - f.Keys
      invariant Listed(path, src, dst, done + added, ops)
      invariant clean ==> Turns(path, src, ops, Object(Mixed(f, g, done, added)))
      decreases g.Keys - f.Keys - added
    {
      assert g.Keys - f.Keys == added + (g.Keys - f.Keys - added);
      var key :| key in g.Keys - f.Keys - added;
      var more := [Add(PointerTo(path + [key]), g[key])];
      AddStep(path, src, dst, added, key);
      ListedMore(path, src, dst, done + added, ops, key, more);
      if clean { TurnsThen(path, src, ops, Object(Mixed(f, g, done, added)), more, Object(Mixed(f, g, done, added + {key}))); }
      assert done + added + {key} == done + (added + {key});
      ops := ops + more;
      added := added + {key};
    }
    assert done + added == f.Keys + g.Keys;
    ListedAll(path, src, dst, done + added, ops);
    MixedIsPatched(src, dst);
  }

  lemma StartOf(path: seq<string>, src: Doc, dst: Doc)
    requires src.Object? && dst.Object?
    ensures Listed(path, src, dst, {}, [])
    ensures Turns(path, src, [], Object(Mixed(src.fields, dst.fields, {}, {})))
  {
    hide Named, Patched;
    assert Mixed(src.fields, dst.fields, {}, {}) == src.fields;
    TurnsNothing(path, src);
  }

  lemma RemoveStep(path: seq<string>, src: Doc, dst: Doc, done: set<string>, key: string)
    requires src.Object? && dst.Object? && !DocEq(src, dst) && done <= src.fields.Keys
    requires key in src.fields && key !in dst.fields && key !in done
    ensures Listed(path, src, dst, {key}, [Remove(PointerTo(path + [key]))])
    ensures Clean(path) && CleanDiff(src, dst) ==>
      Turns(path, Object(Mixed(src.fields, dst.fields, done, {})), [Remove(PointerTo(path + [key]))],
            Object(Mixed(src.fields, dst.fields, done + {key}, {})))
  {
    var op := Remove(PointerTo(path + [key]));
    hide Turns, Patched, Listed, CleanDiff, Named, DocEq, Get;
    GetKey(src, key);
    GetKey(dst, key);
    assert op == OpFor(path, src, dst, [key]);
    ListedSingle(path, src, dst, key);
    if Clean(path) && CleanDiff(src, dst) {
      CleanInside(src, dst, key);
      var f, g := src.fields, dst.fields;
      assert Mixed(f, g, done + {key}, {}) == Mixed(f, g, done, {}) - {key};
      TurnsMember(path, Object(Mixed(f, g, done, {})), key, op, Object(Mixed(f, g, done, {}) - {key}));
    }
  }

  lemma InsideStep(path: seq<string>, src: Doc, dst: Doc, done: set<string>, key: string, more: seq<Op>)
    requires src.Object? && dst.Object? && !DocEq(src, dst) && done <= src.fields.Keys
    requires key in src.fields && key in dst.fields && key !in done
    requires Lists(path + [key], src.fields[key], dst.fields[key], more)
    requires Clean(path + [key]) && CleanDiff(src.fields[key], dst.fields[key]) ==>
      Turns(path + [key], src.fields[key], more, Patched(src.fields[key], dst.fields[key]))
    ensures Listed(path, src, dst, {key}, more)
    ensures Clean(path) && CleanDiff(src, dst) ==>
      Turns(path, Object(Mixed(src.fields, dst.fields, done, {})), more, Object(Mixed(src.fields, dst.fields, done + {key}, {})))
  {
    ListedInside(path, src, dst, key, more);
    if Clean(path) && CleanDiff(src, dst) {
      CleanInside(src, dst, key);
      var f, g := src.fields, dst.fields;
      var now := Object(Mixed(f, g, done, {}));
      if DocEq(f[key], g[key]) {
        NothingListed(path + [key], f[key], g[key], more);
        assert Mixed(f, g, done + {key}, {}) == now.fields;
        TurnsNothing(path, now);
      } else {
        hide Turns, Patched, Listed, Lists, CleanDiff, Named, OpFor, DocEq;
        assert Mixed(f, g, done + {key}, {}) == now.fields[key := Patched(f[key], g[key])];
        TurnsInside(path, now, key, more, Patched(f[key], g[key]));
      }
    }
  }

  lemma AddStep(path: seq<string>, src: Doc, dst: Doc, added: set<string>, key: string)
    requires src.Object? && dst.Object? && !DocEq(src, dst)
    requires key in dst.fields && key !in src.fields && key !in added
    ensures Listed(path, src, dst, {key}, [Add(PointerTo(path + [key]), dst.fields[key])])
    ensures Clean(path) && CleanDiff(src, dst) ==>
      Turns(path, Object(Mixed(src.fields, dst.fields, src.fields.Keys, added)), [Add(PointerTo(path + [key]), dst.fields[key])],
            Object(Mixed(src.fields, dst.fields, src.fields.Keys, added + {key})))
  {
    var op := Add(PointerTo(path + [key]), dst.fields[key]);
    hide Turns, Patched, Listed, CleanDiff, Named, DocEq, Get;
    GetKey(src, key);
    GetKey(dst, key);
    ListedSingle(path, src, dst, key);
    if Clean(path) && CleanDiff(src, dst) {
      CleanInside(src, dst, key);
      var f, g := src.fields, dst.fields;
      var now := Mixed(f, g, f.Keys, added);
      assert Mixed(f, g, f.Keys, added + {key}) == now[key := g[key]];
      TurnsMember(path, Object(now), key, op, Object(now[key := g[key]]));
    }
  }

  lemma MixedIsPatched(src: Doc, dst: Doc)
    requires src.Object? && dst.Object? && !DocEq(src, dst)
    ensures Object(Mixed(src.fields, dst.fields, src.fields.Keys, dst.fields.Keys - src.fields.Keys)) == Patched(src, dst)
  {
    var m := Mixed(src.fields, dst.fields, src.fields.Keys, dst.fields.Keys - src.fields.Keys);
    assert m == Patched(src, dst).fields;
  }

  // ----- what a named path with a percent escape does -----

  predicate Comparable(p: seq<string>, q: seq<string>) {
    p <= q || q <= p
  }

  /** An operation changes nothing at a path that is neither above nor below its own. */
  lemma {:induction false} ApplyElsewhere(d: Doc, parts: seq<string>, op: Op, q: seq<string>)
    requires !Comparable(parts, q) && ApplyAt(d, parts, op).Ok?
    ensures Get(ApplyAt(d, parts, op).value, q) == Get(d, q)
    decreases |parts|
  {
    if |parts| > 1 && parts[0] == q[0] {
      assert parts == [parts[0]] + parts[1..] && q == [q[0]] + q[1..];
      ApplyElsewhere(d.fields[parts[0]], parts[1..], op, q[1..]);
    } else if |parts| == 1 {
      assert parts == [parts[0]];
      assert parts[0] != q[0];
    }
  }

  lemma {:induction false} ApplyAllElsewhere(d: Doc, ops: seq<Op>, q: seq<string>)
    requires ApplyAll(d, ops).Ok?
    requires forall i :: 0 <= i < |ops| ==> Parse(ops[i].path).Ok? && !Comparable(Parse(ops[i].path).value, q)
    ensures Get(ApplyAll(d, ops).value, q) == Get(d, q)
    decreases |ops|
  {
    hide Comparable, Parse, Get, ApplyAt;
    if ops != [] {
      assert Parse(ops[0].path).Ok?;
      ApplyElsewhere(d, Parse(ops[0].path).value, ops[0], q);
      ApplyAllElsewhere(Apply(d, ops[0]).value, ops[1..], q);
    }
  }

  predicate SameAt(a: Option<Doc>, b: Option<Doc>) {
    if a.Some? && b.Some? then DocEq(a.value, b.value) else a == b
  }

  lemma {:induction false} EqualEverywhere(a: Doc, b: Doc, q: seq<string>)
    requires DocEq(a, b)
    ensures SameAt(Get(a, q), Get(b, q))
    decreases |q|
  {
    if q != [] && a.Object? && q[0] in a.fields.Keys {
      EqualEverywhere(a.fields[q[0]], b.fields[q[0]], q[1..]);
    }
  }

  /** The key starts a path that the diff names. */
  ghost predicate Touched(src: Doc, dst: Doc, key: string) {
    exists path :: Named(src, dst, path) && path != [] && path[0] == key
  }

  lemma TouchedDiffers(src: Doc, dst: Doc, key: string)
    requires src.Object? && dst.Object? && Touched(src, dst, key)
    ensures !SameAt(Get(src, [key]), Get(dst, [key]))
    ensures key in src.fields.Keys + dst.fields.Keys
  {
    assert [key][1..] == [];
    var path :| Named(src, dst, path) && path != [] && path[0] == key;
    if key in src.fields && key in dst.fields {
      assert Named(src.fields[key], dst.fields[key], path[1..]);
      assert Get(src, [key]) == Some(src.fields[key]) && Get(dst, [key]) == Some(dst.fields[key]);
    }
  }

  /** A longest one of the keys. */
  lemma {:induction false} Longest(keys: set<string>) returns (k: string)
    requires keys != {}
    ensures k in keys && forall j :: j in keys ==> |j| <= |k|
    decreases |keys|
  {
    var some :| some in keys;
    k := some;
    if keys != {some} {
      assert keys == {some} + (keys - {some});
      var other := Longest(keys - {some});
      if |other| > |some| { k := other; }
    }
  }

  /** If the diff names a path with a percent escape, then some place where the documents differ is
      not touched by any operation: the pointers land elsewhere. */
  lemma {:induction false} SomeMissed(src: Doc, dst: Doc) returns (q: seq<string>)
    requires !CleanDiff(src, dst)
    ensures !SameAt(Get(src, q), Get(dst, q))
    ensures forall path :: Named(src, dst, path) ==> !Comparable(Landing(path), q)
    decreases src
  {
    hide HasEscape, Reread;
    assert src.Object? && dst.Object?;
    var f, g := src.fields, dst.fields;
    var bad := set k | k in f.Keys + g.Keys && HasEscape(k) && Touched(src, dst, k);
    if bad != {} {
      var u := Longest(bad);
      q := [u];
      TouchedDiffers(src, dst, u);
      forall path | Named(src, dst, path) ensures !Comparable(Landing(path), q) {
        assert Touched(src, dst, path[0]);
        TouchedDiffers(src, dst, path[0]);
        LandsAt(path, 0);
        assert path[0] in bad ==> |path[0]| <= |u|;
        assert Landing(path)[0] != u;
      }
    } else {
      var path :| Named(src, dst, path) && !Clean(path);
      var k := path[0];
      assert Touched(src, dst, k);
      TouchedDiffers(src, dst, k);
      assert k !in bad;
      assert !HasEscape(k);
      assert |path| > 1;
      var i :| 0 <= i < |path| && HasEscape(path[i]);
      assert path[1..][i - 1] == path[i];
      assert Named(f[k], g[k], path[1..]) && !Clean(path[1..]);
      q := SomeMissed(f[k], g[k]);
      forall path | Named(src, dst, path) ensures !Comparable(Landing(path), [k] + q) {
        assert Touched(src, dst, path[0]);
        TouchedDiffers(src, dst, path[0]);
        assert path[0] !in bad;
        LandsAt(path, 0);
        LandingTail(path);
        if path[0] == k {
          ConsComparable(k, Landing(path[1..]), q);
        }
      }
      assert ([k] + q)[1..] == q;
      q := [k] + q;
    }
  }

  lemma ConsComparable(k: string, p: seq<string>, q: seq<string>)
    ensures Comparable([k] + p, [k] + q) <==> Comparable(p, q)
  {
    assert ([k] + p)[1..] == p && ([k] + q)[1..] == q;
  }

  lemma PointersMiss(src: Doc, dst: Doc, ops: seq<Op>, q: seq<string>)
    requires Lists([], src, dst, ops)
    requires forall path :: Named(src, dst, path) ==> !Comparable(Landing(path), q)
    ensures forall i :: 0 <= i < |ops| ==> Parse(ops[i].path).Ok? && !Comparable(Parse(ops[i].path).value, q)
  {
    hide Named, Comparable, Parse, Landing, Get;
    forall i | 0 <= i < |ops| ensures Parse(ops[i].path).Ok? && !Comparable(Parse(ops[i].path).value, q) {
      assert ops[i] in ops;
      var path :| Named(src, dst, path) && ops[i] == OpFor([], src, dst, path);
      assert [] + path == path;
      PointerLands(path);
    }
  }

  /** The generated operations turn the one document into one equal to the other exactly when no
      path they name holds a percent escape. */
  lemma DiffExact(src: Doc, dst: Doc, ops: seq<Op>)
    requires Lists([], src, dst, ops)
    requires CleanDiff(src, dst) ==> ApplyAll(src, ops) == Ok(Patched(src, dst))
    ensures ApplyAll(src, ops).Ok? && DocEq(ApplyAll(src, ops).value, dst) <==> CleanDiff(src, dst)
  {
    if CleanDiff(src, dst) {
      PatchedEquals(src, dst);
    } else if ApplyAll(src, ops).Ok? {
      var q := SomeMissed(src, dst);
      PointersMiss(src, dst, ops, q);
      var result := ApplyAll(src, ops).value;
      hide *;
      ApplyAllElsewhere(src, ops, q);
      if DocEq(result, dst) { EqualEverywhere(result, dst, q); }
    }
  }

  /** Diff, then apply. There are no operations exactly when the host compares the documents as
      equal. The result equals `dst` as the host compares them exactly when no named path holds a
      percent escape, and is `dst` itself exactly when, besides, no two scalars are confused. */
  method DiffThenApply(src: Doc, dst: Doc) returns (ops: seq<Op>, result: Result<Doc, PatchError>)
    ensures Lists([], src, dst, ops)
    ensures ops == [] <==> DocEq(src, dst)
    ensures result == ApplyAll(src, ops)
    ensures result.Ok? && DocEq(result.value, dst) <==> CleanDiff(src, dst)
    ensures result == Ok(dst) <==> CleanDiff(src, dst) && NoneConfused(src, dst)
  {
    ops := CompareValues([], src, dst);
    result := ApplyAll(src, ops);
    assert Get(src, []) == Some(src);
    NothingListed([], src, dst, ops);
    hide Lists, CleanDiff, NoneConfused, ApplyAll;
    assert CleanDiff(src, dst) ==> result == Ok(Patched(src, dst));
    DiffExact(src, dst, ops);
    DocEqReflexive(dst);
    PatchedExact(src, dst);
  }

  /** Equal numbers of different types are not told apart: the diff of `{"a": 1}` and `{"a": true}`
      has no operations, so applying it leaves the number. */
  lemma NumberForBoolean(ops: seq<Op>)
    requires Lists([], Object(map["a" := Leaf(Int(1))]), Object(map["a" := Leaf(Bool(true))]), ops)
    ensures ops == []
    ensures var src, dst := Object(map["a" := Leaf(Int(1))]), Object(map["a" := Leaf(Bool(true))]);
      Confused(src, dst, ["a"]) && ApplyAll(src, ops) == Ok(src) && src != dst
  {
    var src, dst := Object(map["a" := Leaf(Int(1))]), Object(map["a" := Leaf(Bool(true))]);
    assert src.fields["a"] != dst.fields["a"];
    assert ["a"][1..] == [];
    NothingListed([], src, dst, ops);
  }

  /** The diff of `{"%41": 1}` and `{}` removes the key `A`, which is not there. */
  lemma PercentKeyConflicts(ops: seq<Op>)
    requires Lists([], Object(map["%41" := Leaf(Int(1))]), Object(map[]), ops)
    ensures ApplyAll(Object(map["%41" := Leaf(Int(1))]), ops) == Err(Conflict)
  {
    var src, dst := Object(map["%41" := Leaf(Int(1))]), Object(map[]);
    assert "%41" in src.fields && "%41" !in dst.fields;
    NothingListed([], src, dst, ops);
    assert ops[0] in ops;
    var path :| Named(src, dst, path) && ops[0] == OpFor([], src, dst, path);
    assert path == ["%41"] && [] + path == path;
    hide Named, Get, Parse, PointerTo;
    GetKey(src, "%41");
    GetKey(dst, "%41");
    PercentKeyLands();
  }
}
