/** Single dispatch: composing a class's resolution order with abstract base classes,
    finding the implementation, and the cache in front of it. */
module Dispatch {
  import opened Results
  import opened Sequences
  import opened C3Merge

  type Impl = nat

  datatype DispatchError = InconsistentHierarchy | AmbiguousDispatch(first: Class, second: Class)

  /** What never changes about the classes: bases, resolution orders, which carry abstract methods,
      and which count as false. */
  datatype Hierarchy = Hierarchy(bases: map<Class, seq<Class>>, mro: map<Class, seq<Class>>, abcs: set<Class>, falsy: set<Class>) {
    function Bases(c: Class): seq<Class> {
      if c in bases then bases[c] else []
    }

    function Mro(c: Class): seq<Class> {
      if c in mro then mro[c] else []
    }

    ghost predicate Valid() {
      forall c, k :: 0 <= k < |Bases(c)| ==> Bases(c)[k] < c
    }
  }

  /** What abstract base class registration can change: the subclass relation and the subclass lists. */
  datatype Relation = Relation(pairs: set<(Class, Class)>, subclasses: map<Class, seq<Class>>) {
    /** `issubclass(c, d)` */
    predicate IsSub(c: Class, d: Class) {
      (c, d) in pairs
    }

    function Subclasses(c: Class): seq<Class> {
      if c in subclasses then subclasses[c] else []
    }

    /** Being a subclass of an ordinary class is being derived from it. */
    ghost predicate Fits(h: Hierarchy) {
      forall c, d :: d !in h.abcs ==> (IsSub(c, d) <==> d in h.Mro(c))
    }
  }

  // ----- the extended linearization -----

  /** One past the last base that is abstract. */
  function Boundary(h: Hierarchy, bases: seq<Class>): (b: nat)
    ensures b <= |bases|
    ensures b > 0 ==> bases[b - 1] in h.abcs
    ensures forall k :: b <= k < |bases| ==> bases[k] !in h.abcs
  {
    if bases == [] then 0
    else if bases[|bases| - 1] in h.abcs then |bases|
    else Boundary(h, bases[..|bases| - 1])
  }

  /** The abstract class enters the hierarchy at `c`: `c` is a subclass, none of its bases is. */
  predicate IntroducedAt(h: Hierarchy, rel: Relation, c: Class, abc: Class) {
    rel.IsSub(c, abc) && forall k :: 0 <= k < |h.Bases(c)| ==> !rel.IsSub(h.Bases(c)[k], abc)
  }

  /** The abstract classes that enter at `c`, or those that do not. */
  function Introduced(h: Hierarchy, rel: Relation, c: Class, abcs: seq<Class>, yes: bool): seq<Class> {
    Filter(abcs, abc => IntroducedAt(h, rel, c, abc) == yes)
  }

  lemma IntroducedSplit(h: Hierarchy, rel: Relation, c: Class, abcs: seq<Class>)
    ensures |Introduced(h, rel, c, abcs, true)| + |Introduced(h, rel, c, abcs, false)| == |abcs|
  {
    FilterSplit(abcs, abc => IntroducedAt(h, rel, c, abc) == true, abc => IntroducedAt(h, rel, c, abc) == false);
  }

  /** Linearization of `c` with the given abstract classes inserted; `None` on inconsistency. */
  function Linearize(h: Hierarchy, rel: Relation, c: Class, abcs: seq<Class>): Option<seq<Class>>
    requires h.Valid()
    decreases |abcs|, c, 0
  {
    var boundary := Boundary(h, h.Bases(c));
    var explicit, other := h.Bases(c)[..boundary], h.Bases(c)[boundary..];
    var abstract_ := Introduced(h, rel, c, abcs, true);
    var left := Introduced(h, rel, c, abcs, false);
    IntroducedSplit(h, rel, c, abcs);
    var e := LinearizeAll(h, rel, explicit, left, |abcs|, c);
    var a := LinearizeAll(h, rel, abstract_, left, |abcs|, c);
    var o := LinearizeAll(h, rel, other, left, |abcs|, c);
    if e.None? || a.None? || o.None? then None
    else MergeTruthy([[c]] + e.value + a.value + o.value + [explicit] + [abstract_] + [other], h.falsy)
  }

  function LinearizeAll(h: Hierarchy, rel: Relation, classes: seq<Class>, abcs: seq<Class>, n: nat, c: Class)
    : Option<seq<seq<Class>>>
    requires h.Valid()
    requires |abcs| <= n && forall k :: 0 <= k < |classes| ==> |abcs| < n || classes[k] < c
    decreases n, c, 0, |classes|
  {
    if classes == [] then Some([])
    else
      var first := Linearize(h, rel, classes[0], abcs);
      var rest := LinearizeAll(h, rel, classes[1..], abcs, n, c);
      if first.None? || rest.None? then None else Some([first.value] + rest.value)
  }

  // ----- composing the order with the registered types -----

  /** The types that are not in the order already, are classes, and have `c` as a subclass. */
  function Related(h: Hierarchy, rel: Relation, c: Class, types: seq<Class>): seq<Class> {
    Filter(types, t => t !in h.Mro(c) && t in h.mro && rel.IsSub(c, t))
  }

  predicate StrictBaseOfAnother(h: Hierarchy, t: Class, types: seq<Class>) {
    exists k :: 0 <= k < |types| && t != types[k] && t in h.Mro(types[k])
  }

  /** The types that no other of them is derived from. */
  function Outermost(h: Hierarchy, types: seq<Class>): seq<Class> {
    Filter(types, t => !StrictBaseOfAnother(h, t, types))
  }

  function Among(s: seq<Class>, types: seq<Class>): seq<Class> {
    Filter(s, t => t in types)
  }

  /** The useful parts of the orders of the related subclasses of one type. */
  function Found(h: Hierarchy, rel: Relation, c: Class, subs: seq<Class>, types: seq<Class>): seq<seq<Class>> {
    if subs == [] then []
    else
      var rest := Found(h, rel, c, subs[1..], types);
      if subs[0] !in h.Mro(c) && rel.IsSub(c, subs[0]) then [Among(h.Mro(subs[0]), types)] + rest else rest
  }

  /** Stable sort by descending length. */
  function InsertLonger(s: seq<Class>, sorted: seq<seq<Class>>): seq<seq<Class>> {
    if sorted == [] || |s| >= |sorted[0]| then [s] + sorted else [sorted[0]] + InsertLonger(s, sorted[1..])
  }

  function LongestFirst(found: seq<seq<Class>>): seq<seq<Class>> {
    if found == [] then [] else InsertLonger(found[0], LongestFirst(found[1..]))
  }

  function AddNew(mro: seq<Class>, s: seq<Class>): seq<Class>
    decreases |s|
  {
    if s == [] then mro else AddNew(if s[0] in mro then mro else mro + [s[0]], s[1..])
  }

  function AddAllNew(mro: seq<Class>, found: seq<seq<Class>>): seq<Class>
    decreases |found|
  {
    if found == [] then mro else AddAllNew(AddNew(mro, found[0]), found[1..])
  }

  function OrderTypes(h: Hierarchy, rel: Relation, c: Class, todo: seq<Class>, types: seq<Class>, mro: seq<Class>): seq<Class>
    decreases |todo|
  {
    if todo == [] then mro
    else
      var found := Found(h, rel, c, rel.Subclasses(todo[0]), types);
      OrderTypes(h, rel, c, todo[1..], types,
        if found == [] then mro + [todo[0]] else AddAllNew(mro, LongestFirst(found)))
  }

  function ComposeMro(h: Hierarchy, rel: Relation, c: Class, types: seq<Class>): Option<seq<Class>>
    requires h.Valid()
  {
    var related := Related(h, rel, c, types);
    var outer := Outermost(h, related);
    Linearize(h, rel, c, OrderTypes(h, rel, c, outer, outer, []))
  }

  // ----- finding the implementation -----

  /** The registered implementations, and the order in which the host iterates over their classes.
      The host may choose any order, and another one whenever a class is added. */
  datatype Registry = Registry(keys: seq<Class>, impls: map<Class, Impl>) {
    function Get(c: Class): Option<Impl> {
      if c in impls then Some(impls[c]) else None
    }

    function Set(c: Class, f: Impl, order: seq<Class>): Registry {
      Registry(order, impls[c := f])
    }

    ghost predicate Valid() {
      NoRepeats(keys) && forall c :: c in keys <==> c in impls
    }
  }

  /** The first registered class of the order, unless the next entry makes the choice ambiguous. */
  function Choose(h: Hierarchy, rel: Relation, c: Class, reg: Registry, mro: seq<Class>): Result<Option<Impl>, DispatchError> {
    if mro == [] then Ok(None)
    else if mro[0] !in reg.impls then Choose(h, rel, c, reg, mro[1..])
    else if |mro| > 1 && Clash(h, rel, c, reg, mro[0], mro[1]) then Err(AmbiguousDispatch(mro[0], mro[1]))
    else Ok(Some(reg.impls[mro[0]]))
  }

  predicate Clash(h: Hierarchy, rel: Relation, c: Class, reg: Registry, first: Class, t: Class) {
    t in reg.impls && t !in h.Mro(c) && first !in h.Mro(c) && !rel.IsSub(first, t)
  }

  function FindImpl(h: Hierarchy, rel: Relation, c: Class, reg: Registry): Result<Option<Impl>, DispatchError>
    requires h.Valid()
  {
    match ComposeMro(h, rel, c, reg.keys)
    case None => Err(InconsistentHierarchy)
    case Some(mro) => Choose(h, rel, c, reg, mro)
  }

  /** The walk over the order as written: remember the match, look one entry further, stop. */
  method FindImplByWalk(h: Hierarchy, rel: Relation, c: Class, reg: Registry) returns (r: Result<Option<Impl>, DispatchError>)
    requires h.Valid()
    ensures r == FindImpl(h, rel, c, reg)
    ensures match ComposeMro(h, rel, c, reg.keys)
      case None => r == Err(InconsistentHierarchy)
      case Some(mro) => IsChoice(h, rel, c, reg, mro, r)
  {
    hide Linearize, OrderTypes, Related, Outermost, IsChoice;
    var composed := ComposeMro(h, rel, c, reg.keys);
    if composed.Some? { ChoiceExact(h, rel, c, reg, composed.value); }
    if composed.None? {
      return Err(InconsistentHierarchy);
    }
    var mro := composed.value;
    var found: Option<Class> := None;
    assert mro[0..] == mro;
    for i := 0 to |mro|
      invariant found.None? ==> Choose(h, rel, c, reg, mro) == Choose(h, rel, c, reg, mro[i..])
      invariant found.Some? ==> i > 0 && found.value == mro[i - 1] && found.value in reg.impls
      invariant found.Some? ==> Choose(h, rel, c, reg, mro) == Choose(h, rel, c, reg, mro[i - 1..])
    {
      var t := mro[i];
      assert mro[i..][1..] == mro[i + 1..];
      if found.Some? {
        assert mro[i - 1..][1] == t;
        if Clash(h, rel, c, reg, found.value, t) {
          return Err(AmbiguousDispatch(found.value, t));
        }
        return Ok(reg.Get(found.value));
      }
      if t in reg.impls {
        found := Some(t);
      }
    }
    if found.Some? {
      assert |mro[|mro| - 1..]| == 1;
      return Ok(reg.Get(found.value));
    }
    assert mro[|mro|..] == [];
    r := Ok(None);
  }

  /** What a dispatch on `c` has to answer. */
  function Answer(h: Hierarchy, rel: Relation, reg: Registry, c: Class): Result<Option<Impl>, DispatchError>
    requires h.Valid()
  {
    if c in reg.impls then Ok(Some(reg.impls[c])) else FindImpl(h, rel, c, reg)
  }

  // ----- which implementation it is -----

  /** Place p holds the first class of the order that has an implementation. */
  ghost predicate FirstRegistered(reg: Registry, mro: seq<Class>, p: nat) {
    p < |mro| && mro[p] in reg.impls && forall q :: 0 <= q < p ==> mro[q] !in reg.impls
  }

  /** The class there and the next one both have implementations, neither is in the order of `c`
      itself, and the first is no subclass of the second. */
  predicate Ambiguous(h: Hierarchy, rel: Relation, c: Class, reg: Registry, mro: seq<Class>, p: nat)
    requires p < |mro|
  {
    && p + 1 < |mro| && mro[p + 1] in reg.impls
    && mro[p] !in h.Mro(c) && mro[p + 1] !in h.Mro(c) && !rel.IsSub(mro[p], mro[p + 1])
  }

  /** What a choice made at place p gives. */
  function ChoiceAt(h: Hierarchy, rel: Relation, c: Class, reg: Registry, mro: seq<Class>, p: nat)
    : Result<Option<Impl>, DispatchError>
    requires p < |mro| && mro[p] in reg.impls
  {
    if Ambiguous(h, rel, c, reg, mro, p) then Err(AmbiguousDispatch(mro[p], mro[p + 1])) else Ok(Some(reg.impls[mro[p]]))
  }

  /** The implementation of the first registered class of the order, unless it is ambiguous. */
  ghost predicate IsChoice(h: Hierarchy, rel: Relation, c: Class, reg: Registry, mro: seq<Class>,
    r: Result<Option<Impl>, DispatchError>)
  {
    && (r == Ok(None) <==> forall p :: 0 <= p < |mro| ==> mro[p] !in reg.impls)
    && forall p: nat :: FirstRegistered(reg, mro, p) ==> r == ChoiceAt(h, rel, c, reg, mro, p)
  }

  lemma {:induction false} ChoiceExact(h: Hierarchy, rel: Relation, c: Class, reg: Registry, mro: seq<Class>)
    ensures IsChoice(h, rel, c, reg, mro, Choose(h, rel, c, reg, mro))
    decreases |mro|
  {
    var r := Choose(h, rel, c, reg, mro);
    if mro != [] && mro[0] !in reg.impls {
      var rest := mro[1..];
      ChoiceExact(h, rel, c, reg, rest);
      assert forall p :: 0 < p < |mro| ==> mro[p] == rest[p - 1];
      forall p: nat | FirstRegistered(reg, mro, p) ensures r == ChoiceAt(h, rel, c, reg, mro, p) {
        forall q | 0 <= q < p - 1 ensures rest[q] !in reg.impls { assert rest[q] == mro[q + 1]; }
        assert FirstRegistered(reg, rest, p - 1);
        assert ChoiceAt(h, rel, c, reg, rest, p - 1) == ChoiceAt(h, rel, c, reg, mro, p);
      }
    } else if mro != [] {
      forall p: nat | FirstRegistered(reg, mro, p) ensures r == ChoiceAt(h, rel, c, reg, mro, p) {}
    }
  }

  /** The answer to a dispatch: the class's own implementation, else the choice from the composed
      order, else the error that there is no such order. */
  lemma AnswerExact(h: Hierarchy, rel: Relation, reg: Registry, c: Class)
    requires h.Valid()
    ensures c in reg.impls ==> Answer(h, rel, reg, c) == Ok(Some(reg.impls[c]))
    ensures c !in reg.impls ==>
      match ComposeMro(h, rel, c, reg.keys)
      case None => Answer(h, rel, reg, c) == Err(InconsistentHierarchy)
      case Some(mro) => IsChoice(h, rel, c, reg, mro, Answer(h, rel, reg, c))
  {
    hide ComposeMro, Choose;
    var composed := ComposeMro(h, rel, c, reg.keys);
    if composed.Some? { ChoiceExact(h, rel, c, reg, composed.value); }
  }

  // ----- a registry without abstract classes -----

  lemma NoneRelated(h: Hierarchy, rel: Relation, c: Class, types: seq<Class>)
    requires rel.Fits(h) && forall k :: 0 <= k < |types| ==> types[k] !in h.abcs
    ensures Related(h, rel, c, types) == []
  {
    FilterNone(types, t => t !in h.Mro(c) && t in h.mro && rel.IsSub(c, t));
  }

  lemma {:induction false} PlainLinearization(h: Hierarchy, r1: Relation, r2: Relation, c: Class)
    requires h.Valid()
    ensures Linearize(h, r1, c, []) == Linearize(h, r2, c, [])
    decreases c, 0
  {
    var boundary := Boundary(h, h.Bases(c));
    PlainAll(h, r1, r2, h.Bases(c)[..boundary], c);
    PlainAll(h, r1, r2, h.Bases(c)[boundary..], c);
    assert LinearizeAll(h, r1, [], [], 0, c) == LinearizeAll(h, r2, [], [], 0, c);
  }

  lemma {:induction false} PlainAll(h: Hierarchy, r1: Relation, r2: Relation, classes: seq<Class>, c: Class)
    requires h.Valid() && forall k :: 0 <= k < |classes| ==> classes[k] < c
    ensures LinearizeAll(h, r1, classes, [], 0, c) == LinearizeAll(h, r2, classes, [], 0, c)
    decreases c, 0, |classes|
  {
    if classes != [] {
      PlainLinearization(h, r1, r2, classes[0]);
      PlainAll(h, r1, r2, classes[1..], c);
    }
  }

  lemma {:induction false} PlainChoice(h: Hierarchy, r1: Relation, r2: Relation, c: Class, reg: Registry, mro: seq<Class>)
    requires r1.Fits(h) && r2.Fits(h) && forall t :: t in reg.impls ==> t !in h.abcs
    ensures Choose(h, r1, c, reg, mro) == Choose(h, r2, c, reg, mro)
    decreases |mro|
  {
    if mro != [] { PlainChoice(h, r1, r2, c, reg, mro[1..]); }
  }

  /** Without abstract classes in the registry, the answer does not depend on the class relation. */
  lemma AnswerWithoutAbcs(h: Hierarchy, r1: Relation, r2: Relation, reg: Registry, c: Class)
    requires h.Valid() && reg.Valid() && r1.Fits(h) && r2.Fits(h)
    requires forall t :: t in reg.impls ==> t !in h.abcs
    ensures Answer(h, r1, reg, c) == Answer(h, r2, reg, c)
  {
    hide Linearize, Choose;
    forall k | 0 <= k < |reg.keys| ensures reg.keys[k] !in h.abcs { assert reg.keys[k] in reg.keys; }
    NoneRelated(h, r1, c, reg.keys);
    NoneRelated(h, r2, c, reg.keys);
    PlainLinearization(h, r1, r2, c);
    var mro := Linearize(h, r1, c, []);
    if mro.Some? { PlainChoice(h, r1, r2, c, reg, mro.value); }
  }

  // ----- the cache -----

  /** The class relation at every value of the host's registration counter. */
  type History = nat -> Relation

  class Dispatcher {
    const h: Hierarchy
    ghost const history: History
    var registry: Registry
    var cache: map<Class, Option<Impl>>
    /** The counter value the cached answers were computed at, once an abstract class is registered. */
    var token: Option<nat>

    /** Every cached answer is the one due: at the remembered counter value, or, while no
        abstract class is registered, at every counter value. */
    ghost predicate Valid()
      reads this
    {
      && h.Valid() && registry.Valid()
      && (forall n :: history(n).Fits(h))
      && (token.None? ==> forall t :: t in registry.impls ==> t !in h.abcs)
      && forall c, n: nat :: c in cache && (token.None? || token == Some(n)) ==>
          Answer(h, history(n), registry, c) == Ok(cache[c])
    }

    /** The default implementation is registered for the root class before any call. */
    constructor (h: Hierarchy, ghost history: History, root: Class, func: Impl)
      requires h.Valid() && (forall n :: history(n).Fits(h)) && root !in h.abcs
      ensures Valid() && this.h == h && this.history == history
      ensures registry == Registry([root], map[root := func]) && cache == map[] && token == None
    {
      this.h := h;
      this.history := history;
      registry := Registry([root], map[root := func]);
      cache := map[];
      token := None;
    }

    /** `now` is the current counter value. Whatever was cached, the answer is the one for the
        registry and class relation of this moment. */
    method DispatchOn(now: nat, rel: Relation, c: Class) returns (r: Result<Option<Impl>, DispatchError>)
      requires Valid() && rel == history(now)
      modifies this`cache, this`token
      ensures Valid()
      ensures r == Answer(h, history(now), registry, c)
      ensures token == if old(token).None? then None else Some(now)
      ensures r.Ok? ==> c in cache && cache[c] == r.value
    {
      hide Answer, FindImpl, IsChoice, ComposeMro;
      if token.Some? && token.value != now {
        cache := map[];
        token := Some(now);
      }
      if c in cache {
        return Ok(cache[c]);
      }
      if c in registry.impls {
        r := Ok(Some(registry.impls[c]));
      } else {
        r := FindImplByWalk(h, rel, c, registry);
      }
      Answered(h, rel, registry, c, r);
      if r.Ok? {
        if token.None? {
          forall n: nat ensures Answer(h, history(n), registry, c) == r {
            AnswerWithoutAbcs(h, history(n), rel, registry, c);
          }
        }
        cache := cache[c := r.value];
      }
    }

    /** Registering an implementation forgets all cached answers; `order` is the host's order from
        now on. */
    method Register(now: nat, c: Class, func: Impl, order: seq<Class>)
      requires Valid() && (forall k :: k in order <==> k == c || k in registry.impls) && NoRepeats(order)
      modifies this
      ensures Valid()
      ensures registry == old(registry).Set(c, func, order) && cache == map[]
      ensures token == if old(token).None? && c in h.abcs then Some(now) else old(token)
    {
      hide Answer;
      registry := registry.Set(c, func, order);
      if token.None? && c in h.abcs {
        token := Some(now);
      }
      cache := map[];
    }

    /** The cache holds its classes weakly: any entry may vanish at any time. */
    method Forget(c: Class)
      requires Valid()
      modifies this`cache
      ensures Valid() && cache == old(cache) - {c}
    {
      hide Answer;
      cache := cache - {c};
    }
  }

  lemma Answered(h: Hierarchy, rel: Relation, reg: Registry, c: Class, r: Result<Option<Impl>, DispatchError>)
    requires h.Valid()
    requires r == if c in reg.impls then Ok(Some(reg.impls[c])) else FindImpl(h, rel, c, reg)
    ensures r == Answer(h, rel, reg, c)
  {
    hide FindImpl;
  }
}
