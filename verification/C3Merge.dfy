/** The C3 merge of class linearizations: what it returns is a linear order that keeps
    every input order, and it fails exactly when there is none. */
module C3Merge {
  import opened Results
  import opened Sequences

  /** A class, known by its identity. A base class is created before the classes derived from it. */
  type Class = nat

  ghost predicate NoRepeats(s: seq<Class>) {
    forall i, j :: 0 <= i < j < |s| ==> s[i] != s[j]
  }

  /** `x` comes before `y` in `order`. */
  ghost predicate Before(order: seq<Class>, x: Class, y: Class) {
    exists p, q :: 0 <= p < q < |order| && order[p] == x && order[q] == y
  }

  /** `order` lists the members of `s` and keeps their order. */
  ghost predicate Keeps(order: seq<Class>, s: seq<Class>) {
    && (forall x :: x in s ==> x in order)
    && forall i, j :: 0 <= i < j < |s| ==> Before(order, s[i], s[j])
  }

  /** A strict linear order consistent with every sequence. */
  ghost predicate Consistent(order: seq<Class>, seqs: seq<seq<Class>>) {
    NoRepeats(order) && forall s :: s in seqs ==> Keeps(order, s)
  }

  ghost predicate Occurs(x: Class, seqs: seq<seq<Class>>) {
    exists s :: s in seqs && x in s
  }

  // ----- one round -----

  predicate NonEmpty(seqs: seq<seq<Class>>) {
    forall k :: 0 <= k < |seqs| ==> seqs[k] != []
  }

  /** The non-empty sequences. */
  function Purge(seqs: seq<seq<Class>>): (r: seq<seq<Class>>)
    ensures forall s :: s in r <==> s in seqs && s != []
    ensures Total(r) == Total(seqs) && NonEmpty(r)
  {
    if seqs == [] then []
    else if seqs[0] == [] then Purge(seqs[1..])
    else [seqs[0]] + Purge(seqs[1..])
  }

  function Total(seqs: seq<seq<Class>>): nat {
    if seqs == [] then 0 else |seqs[0]| + Total(seqs[1..])
  }

  predicate InSomeTail(x: Class, seqs: seq<seq<Class>>) {
    exists k :: 0 <= k < |seqs| && seqs[k] != [] && x in seqs[k][1..]
  }

  /** The first head, from sequence `i` on, that is in no tail. */
  function FirstGoodHead(seqs: seq<seq<Class>>, i: nat): (r: Option<Class>)
    requires NonEmpty(seqs)
    ensures r.Some? ==> !InSomeTail(r.value, seqs) && exists k :: i <= k < |seqs| && r.value == seqs[k][0]
    ensures r.None? ==> forall k :: i <= k < |seqs| ==> InSomeTail(seqs[k][0], seqs)
    decreases |seqs| - i
  {
    if i >= |seqs| then None
    else if !InSomeTail(seqs[i][0], seqs) then Some(seqs[i][0])
    else FirstGoodHead(seqs, i + 1)
  }

  /** Drop `x` where it is the head. */
  function DropHead(seqs: seq<seq<Class>>, x: Class): seq<seq<Class>>
    requires NonEmpty(seqs)
  {
    seq(|seqs|, k requires 0 <= k < |seqs| => if seqs[k][0] == x then seqs[k][1..] else seqs[k])
  }

  lemma {:induction false} TotalDrops(seqs: seq<seq<Class>>, x: Class)
    requires NonEmpty(seqs)
    ensures Total(DropHead(seqs, x)) <= Total(seqs)
    ensures (exists k :: 0 <= k < |seqs| && seqs[k][0] == x) ==> Total(DropHead(seqs, x)) < Total(seqs)
    decreases |seqs|
  {
    if seqs != [] {
      TotalDrops(seqs[1..], x);
      assert DropHead(seqs, x)[1..] == DropHead(seqs[1..], x);
      assert forall k :: 0 < k < |seqs| ==> seqs[k] == seqs[1..][k - 1];
    }
  }

  /** The merge as a function; `None` stands for the inconsistency error. */
  function Merge(seqs: seq<seq<Class>>): Option<seq<Class>>
    decreases Total(seqs)
  {
    var live := Purge(seqs);
    if live == [] then Some([])
    else
      match FirstGoodHead(live, 0)
      case None => None
      case Some(c) =>
        TotalDrops(live, c);
        Extend([c], Merge(DropHead(live, c)))
  }

  predicate AnyFalsy(s: seq<Class>, falsy: set<Class>) {
    exists x :: x in s && x in falsy
  }

  /** What the library's merge returns where the classes in `falsy` count as false: such a class is
      taken for no candidate at all. */
  function MergeTruthy(seqs: seq<seq<Class>>, falsy: set<Class>): Option<seq<Class>> {
    if Merge(seqs).Some? && AnyFalsy(Merge(seqs).value, falsy) then None else Merge(seqs)
  }

  /** The loop: purge, find the first good head, append it, delete it in place. */
  method MergeInPlace(sequences: seq<seq<Class>>, falsy: set<Class>) returns (r: Option<seq<Class>>)
    ensures r == MergeTruthy(sequences, falsy)
    ensures forall order :: r == Some(order) <==> IsC3(sequences, order) && !AnyFalsy(order, falsy)
  {
    TruthyIsC3(sequences, falsy);
    hide IsC3, DropHead, Purge, FirstGoodHead, Total;
    var result: seq<Class>, seqs := [], sequences;
    assert Merge(seqs).Some? ==> [] + Merge(seqs).value == Merge(seqs).value;
    while true
      invariant Merge(sequences) == Extend(result, Merge(seqs))
      invariant !AnyFalsy(result, falsy)
      decreases Total(seqs)
    {
      ghost var before := seqs;
      seqs := Purge(seqs);
      if seqs == [] {
        assert result + [] == result;
        return Some(result);
      }
      var candidate := FindCandidate(seqs);
      if candidate.None? {
        return None;
      }
      TotalDrops(seqs, candidate.value);
      ExtendStep(result, candidate.value, Merge(DropHead(seqs, candidate.value)));
      if candidate.value in falsy {
        assert candidate.value in result + [candidate.value];
        return None;
      }
      result := result + [candidate.value];
      seqs := DeleteHeads(seqs, candidate.value);
    }
  }

  function Extend(front: seq<Class>, m: Option<seq<Class>>): Option<seq<Class>> {
    match m
    case None => None
    case Some(s) => Some(front + s)
  }

  lemma ExtendStep(front: seq<Class>, c: Class, m: Option<seq<Class>>)
    ensures Extend(front + [c], m) == Extend(front, Extend([c], m))
  {
    if m.Some? { assert front + [c] + m.value == front + ([c] + m.value); }
  }

  /** The search over the heads. */
  method FindCandidate(seqs: seq<seq<Class>>) returns (candidate: Option<Class>)
    requires NonEmpty(seqs)
    ensures candidate == FirstGoodHead(seqs, 0)
    ensures candidate.Some? ==> !InSomeTail(candidate.value, seqs) && exists k :: FirstHeadAt(seqs, 0, candidate.value, k)
    ensures candidate.None? ==> forall k :: 0 <= k < |seqs| ==> InSomeTail(seqs[k][0], seqs)
  {
    FirstGoodHeadPlace(seqs, 0);
    hide InSomeTail, FirstHeadAt;
    for i := 0 to |seqs|
      invariant FirstGoodHead(seqs, 0) == FirstGoodHead(seqs, i)
    {
      var rejected := FoundInTails(seqs[i][0], seqs);
      if !rejected {
        return Some(seqs[i][0]);
      }
    }
    candidate := None;
  }

  /** The search for one head in the tails. */
  method FoundInTails(x: Class, seqs: seq<seq<Class>>) returns (found: bool)
    requires NonEmpty(seqs)
    ensures found == InSomeTail(x, seqs)
  {
    for j := 0 to |seqs|
      invariant forall k :: 0 <= k < j ==> x !in seqs[k][1..]
    {
      if x in seqs[j][1..] {
        return true;
      }
    }
    found := false;
  }

  /** The deletion loop. */
  method DeleteHeads(sequences: seq<seq<Class>>, x: Class) returns (seqs: seq<seq<Class>>)
    requires NonEmpty(sequences)
    ensures seqs == DropHead(sequences, x)
  {
    seqs := sequences;
    for k := 0 to |seqs|
      invariant |seqs| == |sequences|
      invariant forall i :: 0 <= i < k ==> seqs[i] == DropHead(sequences, x)[i]
      invariant forall i :: k <= i < |seqs| ==> seqs[i] == sequences[i]
    {
      if seqs[k][0] == x {
        seqs := seqs[k := seqs[k][1..]];
      }
    }
  }

  // ----- soundness -----

  /** A successful merge lists every input element exactly once and nothing else,
      and keeps the order of every input sequence. */
  lemma {:induction false} MergeSound(seqs: seq<seq<Class>>)
    requires Merge(seqs).Some?
    ensures Consistent(Merge(seqs).value, seqs)
    ensures forall x :: x in Merge(seqs).value <==> Occurs(x, seqs)
    decreases Total(seqs)
  {
    var live := Purge(seqs);
    if live == [] {
      forall s | s in seqs ensures s == [] {}
    } else {
      var c := FirstGoodHead(live, 0).value;
      assert !InSomeTail(c, live) && exists k :: 0 <= k < |live| && c == live[k][0];
      var rest := DropHead(live, c);
      TotalDrops(live, c);
      MergeSound(rest);
      var m := Merge(rest).value;
      assert Merge(seqs).value == [c] + m;
      assert forall s :: s in seqs ==> s in live || s == [];
      hide Merge, FirstGoodHead, Keeps, InSomeTail, Occurs, Total;
      ConsSound(seqs, live, c, m);
    }
  }

  lemma ConsSound(seqs: seq<seq<Class>>, live: seq<seq<Class>>, c: Class, m: seq<Class>)
    requires live == Purge(seqs) && !InSomeTail(c, live) && exists k :: 0 <= k < |live| && c == live[k][0]
    requires Consistent(m, DropHead(live, c)) && forall x :: x in m <==> Occurs(x, DropHead(live, c))
    ensures Consistent([c] + m, seqs)
    ensures forall x :: x in [c] + m <==> Occurs(x, seqs)
  {
    hide Occurs, InSomeTail;
    DroppedIsGone(live, c);
    forall x ensures x in [c] + m <==> Occurs(x, seqs) { OccursAfterDrop(seqs, c, x); }
    assert c !in m;
    forall s | s in seqs ensures Keeps([c] + m, s) {
      if s != [] { KeepsHead(live, c, m, s); }
    }
  }

  lemma DroppedIsGone(live: seq<seq<Class>>, c: Class)
    requires NonEmpty(live) && !InSomeTail(c, live)
    ensures !Occurs(c, DropHead(live, c))
  {
    var rest := DropHead(live, c);
    forall s | s in rest ensures c !in s {
      var k :| 0 <= k < |rest| && rest[k] == s;
      assert live[k] in live;
      assert live[k] == [live[k][0]] + live[k][1..];
    }
  }

  lemma OccursAfterDrop(seqs: seq<seq<Class>>, c: Class, x: Class)
    requires exists k :: 0 <= k < |Purge(seqs)| && c == Purge(seqs)[k][0]
    ensures Occurs(x, seqs) <==> x == c || Occurs(x, DropHead(Purge(seqs), c))
  {
    var live := Purge(seqs);
    assert Occurs(x, seqs) <==> Occurs(x, live) by {
      if Occurs(x, seqs) {
        var s :| s in seqs && x in s;
        assert s in live;
      }
    }
    OccursInLive(live, c, x);
  }

  lemma OccursInLive(live: seq<seq<Class>>, c: Class, x: Class)
    requires NonEmpty(live) && exists k :: 0 <= k < |live| && c == live[k][0]
    ensures Occurs(x, live) <==> x == c || Occurs(x, DropHead(live, c))
  {
    var rest := DropHead(live, c);
    if Occurs(x, live) && x != c {
      var s :| s in live && x in s;
      var k :| 0 <= k < |live| && live[k] == s;
      assert live[k] == [live[k][0]] + live[k][1..];
      assert x in rest[k] && rest[k] in rest;
    }
    if Occurs(x, rest) {
      var s :| s in rest && x in s;
      var k :| 0 <= k < |rest| && rest[k] == s;
      assert live[k] in live && x in live[k];
    }
    var k :| 0 <= k < |live| && c == live[k][0];
    assert live[k] in live && c in live[k];
  }

  lemma KeepsHead(live: seq<seq<Class>>, c: Class, m: seq<Class>, s: seq<Class>)
    requires NonEmpty(live) && s in live
    requires Consistent(m, DropHead(live, c))
    ensures Keeps([c] + m, s)
  {
    hide Keeps;
    var k :| 0 <= k < |live| && live[k] == s;
    var t := DropHead(live, c)[k];
    assert t in DropHead(live, c);
    KeepsCons(c, m, t);
    assert s[0] == c ==> s == [c] + t;
  }

  lemma KeepsCons(c: Class, m: seq<Class>, t: seq<Class>)
    requires Keeps(m, t)
    ensures Keeps([c] + m, t) && Keeps([c] + m, [c] + t)
  {
    var order, s := [c] + m, [c] + t;
    forall i, j | 0 <= i < j < |t| ensures Before(order, t[i], t[j]) { BeforeCons(c, m, t[i], t[j]); }
    forall i, j | 0 <= i < j < |s| ensures Before(order, s[i], s[j]) {
      assert s[j] == t[j - 1] && t[j - 1] in m;
      if i == 0 {
        var q :| 0 <= q < |m| && m[q] == s[j];
        assert order[0] == c && order[q + 1] == s[j];
      } else {
        assert s[i] == t[i - 1];
      }
    }
  }

  lemma BeforeCons(c: Class, m: seq<Class>, x: Class, y: Class)
    requires Before(m, x, y)
    ensures Before([c] + m, x, y)
  {
    var p, q :| 0 <= p < q < |m| && m[p] == x && m[q] == y;
    assert ([c] + m)[p + 1] == x && ([c] + m)[q + 1] == y;
  }

  // ----- completeness -----

  /** Where a consistent linear order exists, the merge does not fail. */
  lemma {:induction false} MergeComplete(seqs: seq<seq<Class>>, order: seq<Class>)
    requires Consistent(order, seqs)
    ensures Merge(seqs).Some?
    decreases Total(seqs)
  {
    var live := Purge(seqs);
    if live != [] {
      SomeHeadIsGood(live, order);
      var c := FirstGoodHead(live, 0).value;
      var rest := DropHead(live, c);
      forall s | s in rest ensures Keeps(order, s) {
        var k :| 0 <= k < |rest| && rest[k] == s;
        assert live[k] in live && Keeps(order, live[k]);
        if live[k][0] == c { KeepsTail(order, live[k]); }
      }
      TotalDrops(live, c);
      MergeComplete(rest, order);
    }
  }

  lemma KeepsTail(order: seq<Class>, s: seq<Class>)
    requires s != [] && Keeps(order, s)
    ensures Keeps(order, s[1..])
  {
    var t := s[1..];
    forall i, j | 0 <= i < j < |t| ensures Before(order, t[i], t[j]) {
      assert t[i] == s[i + 1] && t[j] == s[j + 1];
    }
  }

  /** The head that comes first in the order is in no tail. */
  lemma SomeHeadIsGood(live: seq<seq<Class>>, order: seq<Class>)
    requires live != [] && NonEmpty(live) && Consistent(order, live)
    ensures FirstGoodHead(live, 0).Some?
  {
    var k := FirstHead(live, order, |live| - 1);
    var x := live[k][0];
    forall n | 0 <= n < |live| ensures x !in live[n][1..] {
      assert live[n] in live;
      EarlierNotInTail(order, live[n], x);
    }
    assert !InSomeTail(x, live);
  }

  lemma EarlierNotInTail(order: seq<Class>, s: seq<Class>, x: Class)
    requires NoRepeats(order) && s != [] && Keeps(order, s) && x in order && s[0] in order
    requires IndexOf(order, x) <= IndexOf(order, s[0])
    ensures x !in s[1..]
  {
    forall j | 0 < j < |s| ensures s[j] != x {
      assert Before(order, s[0], s[j]);
      var p, q :| 0 <= p < q < |order| && order[p] == s[0] && order[q] == s[j];
      assert p == IndexOf(order, s[0]);
    }
  }

  lemma {:induction false} FirstHead(live: seq<seq<Class>>, order: seq<Class>, n: nat) returns (k: nat)
    requires n < |live| && NonEmpty(live) && Consistent(order, live)
    ensures k <= n
    ensures forall i :: 0 <= i < |live| ==> live[i][0] in order
    ensures forall i :: 0 <= i <= n ==> IndexOf(order, live[k][0]) <= IndexOf(order, live[i][0])
    decreases n
  {
    forall i | 0 <= i < |live| ensures live[i][0] in order {
      assert live[i] in live && live[i][0] in live[i];
    }
    if n == 0 {
      k := 0;
    } else {
      k := FirstHead(live, order, n - 1);
      if IndexOf(order, live[n][0]) < IndexOf(order, live[k][0]) { k := n; }
    }
  }

  /** The merge fails exactly when no strict linear order is consistent with all the sequences. */
  lemma MergeFailsIff(seqs: seq<seq<Class>>)
    ensures Merge(seqs).None? <==> !exists order :: Consistent(order, seqs)
  {
    if Merge(seqs).Some? {
      MergeSound(seqs);
    }
    forall order | Consistent(order, seqs) ensures Merge(seqs).Some? {
      MergeComplete(seqs, order);
    }
  }

  /** The library raises exactly when there is no such order or one of the classes counts as false. */
  lemma LibraryFailsIff(seqs: seq<seq<Class>>, falsy: set<Class>)
    ensures MergeTruthy(seqs, falsy).None? <==>
      !(exists order :: Consistent(order, seqs)) || exists x :: x in falsy && Occurs(x, seqs)
  {
    MergeFailsIff(seqs);
    hide Merge, Consistent, Occurs;
    if Merge(seqs).Some? {
      MergeSound(seqs);
      var order := Merge(seqs).value;
      if AnyFalsy(order, falsy) {
        var x :| x in order && x in falsy;
        assert x in falsy && Occurs(x, seqs);
      }
      if x :| x in falsy && Occurs(x, seqs) { assert x in order && x in falsy; }
    }
  }

  // ----- which order it is -----

  /** `x` is the first element of `s` that is not among `done`. */
  ghost predicate IsNext(s: seq<Class>, done: seq<Class>, x: Class) {
    x !in done && exists i :: 0 <= i < |s| && s[i] == x && forall j :: 0 <= j < i ==> s[j] in done
  }

  /** An element that is not among `done` comes before `x` in `s`. */
  ghost predicate Waits(s: seq<Class>, done: seq<Class>, x: Class) {
    exists i, j :: 0 <= i < j < |s| && s[i] !in done && s[j] == x
  }

  ghost predicate Free(seqs: seq<seq<Class>>, done: seq<Class>, x: Class) {
    forall k :: 0 <= k < |seqs| ==> !Waits(seqs[k], done, x)
  }

  /** `x` is next in list k, and whatever is next in an earlier list waits somewhere. */
  ghost predicate FirstNext(seqs: seq<seq<Class>>, done: seq<Class>, x: Class, k: nat) {
    && k < |seqs| && IsNext(seqs[k], done, x)
    && forall i, y :: 0 <= i < k && IsNext(seqs[i], done, y) ==> !Free(seqs, done, y)
  }

  /** `x` is next in the first list whose next element waits in no list. */
  ghost predicate Picked(seqs: seq<seq<Class>>, done: seq<Class>, x: Class) {
    Free(seqs, done, x) && exists k :: FirstNext(seqs, done, x, k)
  }

  /** The C3 order of the lists: every element, each time the one picked. */
  ghost predicate IsC3(seqs: seq<seq<Class>>, order: seq<Class>) {
    && (forall p :: 0 <= p < |order| ==> Picked(seqs, order[..p], order[p]))
    && forall x :: Occurs(x, seqs) ==> x in order
  }

  /** Strictly increasing places, from `n` on, of the lists of `live` in `seqs`, which has no other
      non-empty lists from there on. */
  ghost predicate Places(seqs: seq<seq<Class>>, n: nat, live: seq<seq<Class>>, f: seq<nat>) {
    && |f| == |live|
    && (forall i :: 0 <= i < |f| ==> n <= f[i] < |seqs| && live[i] == seqs[f[i]])
    && (forall i, j :: 0 <= i < j < |f| ==> f[i] < f[j])
    && forall k :: n <= k < |seqs| && seqs[k] != [] ==> k in f
  }

  lemma {:induction false} PurgePlaces(seqs: seq<seq<Class>>, n: nat) returns (f: seq<nat>)
    requires n <= |seqs|
    ensures Places(seqs, n, Purge(seqs[n..]), f)
    decreases |seqs| - n
  {
    if n == |seqs| {
      f := [];
    } else {
      f := PurgePlaces(seqs, n + 1);
      assert seqs[n..][1..] == seqs[n + 1..];
      if seqs[n] != [] { f := MorePlaces(seqs, n, Purge(seqs[n + 1..]), f); }
    }
  }

  lemma MorePlaces(seqs: seq<seq<Class>>, n: nat, live: seq<seq<Class>>, rest: seq<nat>) returns (f: seq<nat>)
    requires n < |seqs| && Places(seqs, n + 1, live, rest)
    ensures Places(seqs, n, [seqs[n]] + live, f)
  {
    f := [n] + rest;
    assert f[0] == n && forall i :: 0 < i < |f| ==> f[i] == rest[i - 1];
    assert forall k :: k in f <==> k == n || k in rest;
  }

  lemma NothingNext(done: seq<Class>, x: Class)
    ensures !IsNext([], done, x) && !Waits([], done, x)
  {
  }

  lemma FreePlaces(seqs: seq<seq<Class>>, live: seq<seq<Class>>, f: seq<nat>, done: seq<Class>, y: Class)
    requires Places(seqs, 0, live, f)
    ensures Free(seqs, done, y) <==> Free(live, done, y)
  {
    NothingNext(done, y);
    hide Waits;
    if Free(live, done, y) {
      forall k | 0 <= k < |seqs| ensures !Waits(seqs[k], done, y) {
        if seqs[k] != [] { var i :| 0 <= i < |f| && f[i] == k; }
      }
    }
  }

  /** Empty lists do not matter. */
  lemma PickedPurge(seqs: seq<seq<Class>>, done: seq<Class>, x: Class)
    ensures Picked(seqs, done, x) <==> Picked(Purge(seqs), done, x)
  {
    hide IsNext, Waits, Purge, Free;
    var live := Purge(seqs);
    var f := PurgePlaces(seqs, 0);
    assert seqs[0..] == seqs;
    forall y ensures Free(seqs, done, y) <==> Free(live, done, y) { FreePlaces(seqs, live, f, done, y); }
    forall y ensures !IsNext([], done, y) { NothingNext(done, y); }
    if k: nat :| FirstNext(seqs, done, x, k) {
      var i :| 0 <= i < |f| && f[i] == k;
      assert FirstNext(live, done, x, i);
    }
    if i: nat :| FirstNext(live, done, x, i) {
      forall k, y | 0 <= k < f[i] && IsNext(seqs[k], done, y) ensures !Free(seqs, done, y) {
        var j :| 0 <= j < |f| && f[j] == k;
        assert j < i && IsNext(live[j], done, y);
      }
      assert FirstNext(seqs, done, x, f[i]);
    }
  }

  lemma NextAtStart(s: seq<Class>, x: Class)
    ensures IsNext(s, [], x) <==> s != [] && s[0] == x
    ensures Waits(s, [], x) <==> s != [] && x in s[1..]
  {
    if s != [] {
      assert forall j :: 0 < j < |s| ==> s[j] == s[1..][j - 1];
      if x in s[1..] {
        var j :| 0 <= j < |s[1..]| && s[1..][j] == x;
        assert s[j + 1] == x;
      }
    }
  }

  /** At the start the element picked is the candidate of the first round. */
  lemma FirstPicked(live: seq<seq<Class>>, x: Class)
    requires NonEmpty(live)
    ensures Picked(live, [], x) <==> FirstGoodHead(live, 0) == Some(x)
  {
    hide FirstGoodHead;
    StartAt(live);
    FirstGoodHeadPlace(live, 0);
    hide IsNext, InSomeTail, Free, NonEmpty;
    forall y, k: nat ensures !InSomeTail(y, live) ==> (FirstNext(live, [], y, k) <==> FirstHeadAt(live, 0, y, k)) {
      assert forall i :: 0 <= i < |live| ==> IsNext(live[i], [], live[i][0]);
    }
    hide FirstNext;
    if k: nat :| !InSomeTail(x, live) && FirstNext(live, [], x, k) {
      assert FirstHeadAt(live, 0, x, k);
    }
  }

  lemma StartAt(live: seq<seq<Class>>)
    requires NonEmpty(live)
    ensures forall k, y :: 0 <= k < |live| ==> (IsNext(live[k], [], y) <==> live[k][0] == y)
    ensures forall y :: Free(live, [], y) <==> !InSomeTail(y, live)
  {
    forall k, y | 0 <= k < |live|
      ensures IsNext(live[k], [], y) <==> live[k][0] == y
      ensures Waits(live[k], [], y) <==> y in live[k][1..]
    {
      NextAtStart(live[k], y);
    }
    hide IsNext, Waits;
  }

  /** `x` heads list k, and the heads of the lists from n up to it are in tails. */
  ghost predicate FirstHeadAt(live: seq<seq<Class>>, n: nat, x: Class, k: nat)
    requires NonEmpty(live)
  {
    n <= k < |live| && live[k][0] == x && forall i :: n <= i < k ==> InSomeTail(live[i][0], live)
  }

  lemma {:induction false} FirstGoodHeadPlace(live: seq<seq<Class>>, n: nat)
    requires NonEmpty(live) && n <= |live|
    ensures var r := FirstGoodHead(live, n);
      if r.Some? then !InSomeTail(r.value, live) && exists k :: FirstHeadAt(live, n, r.value, k)
      else (forall i :: n <= i < |live| ==> InSomeTail(live[i][0], live))
    decreases |live| - n
  {
    hide InSomeTail;
    if n < |live| {
      FirstGoodHeadPlace(live, n + 1);
      var r := FirstGoodHead(live, n);
      if !InSomeTail(live[n][0], live) {
        assert FirstHeadAt(live, n, live[n][0], n);
      } else if r.Some? {
        var k :| FirstHeadAt(live, n + 1, r.value, k);
        assert FirstHeadAt(live, n, r.value, k);
      }
    }
  }

  /** A list without `c`, or one that starts with it, when `c` is taken. */
  lemma NextAfterHead(t: seq<Class>, c: Class, done: seq<Class>, x: Class)
    requires c !in t
    ensures IsNext(t, [c] + done, x) <==> IsNext(t, done, x)
    ensures IsNext([c] + t, [c] + done, x) <==> IsNext(t, done, x)
  {
    var s, more := [c] + t, [c] + done;
    assert forall y :: y in more <==> y == c || y in done;
    assert forall i :: 0 <= i < |t| ==> t[i] != c && t[i] == s[i + 1];
    if IsNext(s, more, x) {
      var i :| 0 <= i < |s| && s[i] == x && forall j :: 0 <= j < i ==> s[j] in more;
      forall j | 0 <= j < i - 1 ensures t[j] in done { assert s[j + 1] in more; }
      assert t[i - 1] == x;
    }
    if IsNext(t, done, x) {
      var i :| 0 <= i < |t| && t[i] == x && forall j :: 0 <= j < i ==> t[j] in done;
      forall j | 0 <= j < i + 1 ensures s[j] in more { if j > 0 { assert t[j - 1] in done; } }
      assert s[i + 1] == x;
    }
  }

  lemma WaitsAfterHead(t: seq<Class>, c: Class, done: seq<Class>, x: Class)
    requires c !in t
    ensures Waits(t, [c] + done, x) <==> Waits(t, done, x)
    ensures Waits([c] + t, [c] + done, x) <==> Waits(t, done, x)
  {
    var s, more := [c] + t, [c] + done;
    assert forall y :: y in more <==> y == c || y in done;
    assert forall i :: 0 <= i < |t| ==> t[i] != c && t[i] == s[i + 1];
    if i, j :| 0 <= i < j < |s| && s[i] !in more && s[j] == x {
      assert t[i - 1] == s[i] && t[j - 1] == s[j];
    }
    if i, j :| 0 <= i < j < |t| && t[i] !in done && t[j] == x {
      assert s[i + 1] == t[i] && s[j + 1] == t[j];
    }
  }

  lemma AfterHead(s: seq<Class>, c: Class, done: seq<Class>, x: Class)
    requires s != [] && c !in s[1..]
    ensures var t := if s[0] == c then s[1..] else s;
      && (IsNext(s, [c] + done, x) <==> IsNext(t, done, x))
      && (Waits(s, [c] + done, x) <==> Waits(t, done, x))
  {
    hide IsNext, Waits;
    assert s == [s[0]] + s[1..];
    var t := if s[0] == c then s[1..] else s;
    NextAfterHead(t, c, done, x);
    WaitsAfterHead(t, c, done, x);
  }

  /** The next pick over the lists is the pick over what is left of them. */
  lemma PickedAfter(live: seq<seq<Class>>, c: Class, done: seq<Class>, x: Class)
    requires NonEmpty(live) && !InSomeTail(c, live)
    ensures Picked(live, [c] + done, x) <==> Picked(DropHead(live, c), done, x)
  {
    var rest, more := DropHead(live, c), [c] + done;
    forall k, y | 0 <= k < |live|
      ensures IsNext(live[k], more, y) <==> IsNext(rest[k], done, y)
      ensures Waits(live[k], more, y) <==> Waits(rest[k], done, y)
    {
      AfterHead(live[k], c, done, y);
    }
    hide IsNext, Waits, InSomeTail, DropHead;
    forall y ensures Free(live, more, y) <==> Free(rest, done, y) {}
    hide Free;
    forall k: nat ensures FirstNext(live, more, x, k) <==> FirstNext(rest, done, x, k) {}
    hide FirstNext;
  }

  /** The merge returns the C3 order of the lists where there is one, and fails otherwise. */
  lemma {:induction false} MergeIsC3(seqs: seq<seq<Class>>, order: seq<Class>)
    ensures Merge(seqs) == Some(order) <==> IsC3(seqs, order)
    decreases Total(seqs)
  {
    var live := Purge(seqs);
    if live == [] {
      if order != [] {
        assert order[..0] == [];
        PickedPurge(seqs, [], order[0]);
        NothingPicked(order[0]);
      }
    } else {
      SomeOccurs(seqs);
      if order != [] && FirstGoodHead(live, 0) == Some(order[0]) {
        TotalDrops(live, order[0]);
        MergeIsC3(DropHead(live, order[0]), order[1..]);
        C3Cons(seqs, order[0], order[1..]);
        assert order == [order[0]] + order[1..];
      } else if order != [] {
        assert order[..0] == [];
        PickedPurge(seqs, [], order[0]);
        FirstPicked(live, order[0]);
      }
      hide IsC3, Picked, Purge, Occurs, FirstGoodHead, DropHead;
      MergeHead(seqs, order);
    }
  }

  lemma TruthyIsC3(seqs: seq<seq<Class>>, falsy: set<Class>)
    ensures forall order :: MergeTruthy(seqs, falsy) == Some(order) <==> IsC3(seqs, order) && !AnyFalsy(order, falsy)
  {
    forall order ensures Merge(seqs) == Some(order) <==> IsC3(seqs, order) { MergeIsC3(seqs, order); }
    hide Merge, IsC3, AnyFalsy;
  }

  lemma SomeOccurs(seqs: seq<seq<Class>>)
    requires Purge(seqs) != []
    ensures !IsC3(seqs, [])
  {
    var s := Purge(seqs)[0];
    assert s in seqs && s[0] in s;
    assert Occurs(s[0], seqs);
  }

  /** The merge of some non-empty lists starts with the candidate of the first round. */
  lemma MergeHead(seqs: seq<seq<Class>>, order: seq<Class>)
    requires Purge(seqs) != []
    ensures order == [] ==> Merge(seqs) != Some(order)
    ensures order != [] ==>
      var c := FirstGoodHead(Purge(seqs), 0);
      Merge(seqs) == Some(order) <==> c == Some(order[0]) && Merge(DropHead(Purge(seqs), order[0])) == Some(order[1..])
  {
    hide Purge, FirstGoodHead, DropHead;
    var c := FirstGoodHead(Purge(seqs), 0);
    if c.Some? {
      TotalDrops(Purge(seqs), c.value);
      var rest := Merge(DropHead(Purge(seqs), c.value));
      if rest.Some? { assert ([c.value] + rest.value)[1..] == rest.value; }
      if order != [] { assert order == [order[0]] + order[1..]; }
    }
  }

  lemma NothingPicked(x: Class)
    ensures !Picked([], [], x)
  {
  }

  /** An order is the C3 order exactly when its tail is that of what is left after its head. */
  lemma C3Cons(seqs: seq<seq<Class>>, c: Class, rest: seq<Class>)
    requires FirstGoodHead(Purge(seqs), 0) == Some(c)
    ensures IsC3(seqs, [c] + rest) <==> IsC3(DropHead(Purge(seqs), c), rest)
  {
    var live, order := Purge(seqs), [c] + rest;
    var left := DropHead(live, c);
    FirstPicked(live, c);
    DroppedIsGone(live, c);
    forall x ensures Occurs(x, seqs) <==> x == c || Occurs(x, left) { OccursAfterDrop(seqs, c, x); }
    hide Purge, Picked, Occurs, FirstGoodHead, DropHead;
    PickedPurge(seqs, [], c);
    assert order[..0] == [];
    forall p | 0 <= p < |rest|
      ensures Picked(seqs, order[..p + 1], order[p + 1]) <==> Picked(left, rest[..p], rest[p])
    {
      assert order[..p + 1] == [c] + rest[..p];
      PickedPurge(seqs, [c] + rest[..p], rest[p]);
      PickedAfter(live, c, rest[..p], rest[p]);
    }
    hide InSomeTail;
    if IsC3(left, rest) {
      forall p | 0 <= p < |order| ensures Picked(seqs, order[..p], order[p]) {
        if p > 0 { assert Picked(left, rest[..p - 1], rest[p - 1]); }
      }
    }
    if IsC3(seqs, order) {
      forall p | 0 <= p < |rest| ensures Picked(left, rest[..p], rest[p]) {
        assert Picked(seqs, order[..p + 1], order[p + 1]);
      }
    }
  }

  /** An element that stands alone in the first list, and in no other, comes first. */
  lemma AloneFirst(lists: seq<seq<Class>>, order: seq<Class>, c: Class)
    requires IsC3(lists, order) && lists != [] && lists[0] == [c]
    requires forall k :: 0 < k < |lists| ==> c !in lists[k]
    ensures order != [] && order[0] == c
  {
    assert lists[0] in lists && c in lists[0];
    assert Occurs(c, lists);
    assert order != [] && order[..0] == [];
    assert Picked(lists, [], order[0]);
    NextAtStart([c], c);
    assert Free(lists, [], c);
    var k: nat :| FirstNext(lists, [], order[0], k);
    hide Free;
    if k > 0 { assert IsNext(lists[0], [], c); } else { NextAtStart([c], order[0]); }
  }
}
