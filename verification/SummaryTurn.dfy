/** Where the sizes in a summary turn from rising to falling, and how many blocks that makes. */
module SummaryTurn {
  import opened Bits
  import opened Blocks
  import opened Sequences
  import opened Summarize

  /** The place of the highest bit in which the two ends differ. */
  function TopBit(first: nat, last: nat): nat
    requires first < last
  {
    XorPositive(first, last);
    BitLengthBounds(Xor(first, last));
    BitLength(Xor(first, last)) - 1
  }

  /** `last` with the bits below the highest one that differs from `first` cleared. */
  function Middle(first: nat, last: nat): int
    requires first < last
  {
    Clear(last, TopBit(first, last))
  }

  /** The number of one bits. */
  function Ones(x: nat): nat {
    if x == 0 then 0 else x % 2 + Ones(x / 2)
  }

  lemma {:induction false} XorSelf(x: nat)
    ensures Xor(x, x) == 0
  {
    if x > 0 { XorSelf(x / 2); }
  }

  lemma {:induction false} XorPositive(x: nat, y: nat)
    requires x < y
    ensures Xor(x, y) > 0
    decreases y
  {
    if x / 2 < y / 2 { XorPositive(x / 2, y / 2); }
  }

  /** The middle is the one number after `first`, up to `last`, aligned to that bit; the range
      reaches no further than that bit on either side. */
  lemma {:induction false} MiddleBounds(first: nat, last: nat)
    requires first < last
    ensures first < Middle(first, last) <= last
    ensures Aligned(Middle(first, last), TopBit(first, last)) && !Aligned(Middle(first, last), TopBit(first, last) + 1)
    ensures Middle(first, last) <= first + Pow2(TopBit(first, last))
    ensures last < Middle(first, last) + Pow2(TopBit(first, last))
    decreases last
  {
    var d := TopBit(first, last);
    if first / 2 == last / 2 {
      XorSelf(first / 2);
      assert BitLength(1) == 1 + BitLength(0);
      assert d == 0;
    } else {
      MiddleBounds(first / 2, last / 2);
      XorPositive(first / 2, last / 2);
      var x := Xor(first, last);
      assert x / 2 == Xor(first / 2, last / 2) && x > 0;
      assert d == TopBit(first / 2, last / 2) + 1;
      assert Middle(first, last) == 2 * Middle(first / 2, last / 2);
    }
  }

  /** How many addresses of the range lie before the middle. */
  function Left(first: nat, last: nat): nat
    requires first < last
  {
    MiddleBounds(first, last);
    Middle(first, last) - first
  }

  /** How many lie from the middle on. */
  function Right(first: nat, last: nat): nat
    requires first < last
  {
    MiddleBounds(first, last);
    last + 1 - Middle(first, last)
  }

  lemma {:induction false} OnesAdd(x: nat, e: nat)
    requires x < Pow2(e)
    ensures Ones(x + Pow2(e)) == Ones(x) + 1
    decreases e
  {
    if e > 0 {
      OnesAdd(x / 2, e - 1);
      assert (x + Pow2(e)) / 2 == x / 2 + Pow2(e - 1);
      assert (x + Pow2(e)) % 2 == x % 2;
    } else {
      assert Ones(1) == 1 + Ones(0);
    }
  }

  lemma {:induction false} OnesOfOnes(k: nat)
    ensures Ones(Pow2(k) - 1) == k
  {
    if k > 0 {
      OnesOfOnes(k - 1);
      assert (Pow2(k) - 1) / 2 == Pow2(k - 1) - 1;
    }
  }

  lemma BitLengthIs(x: nat, e: nat)
    requires Pow2(e) <= x < Pow2(e + 1)
    ensures BitLength(x) == e + 1
  {
    BitLengthBounds(x);
    var n := BitLength(x);
    if n < e + 1 { Pow2Less(n, e + 1); }
    if e + 1 < n { if e + 1 < n - 1 { Pow2Less(e + 1, n - 1); } }
  }

  // ----- the sums on the two sides -----

  ghost predicate Rises(w: nat, s: seq<Block>, n: nat)
    requires n < |s| && forall b :: b in s ==> b.plen <= w
  {
    forall i :: 0 <= i < n ==> Exp(w, s[i]) < Exp(w, s[i + 1])
  }

  ghost predicate Falls(w: nat, s: seq<Block>, n: nat)
    requires n < |s| && forall b :: b in s ==> b.plen <= w
  {
    forall i :: n <= i < |s| - 1 ==> Exp(w, s[i]) > Exp(w, s[i + 1])
  }

  /** Rising sizes are the one bits of their sum, lowest first. */
  lemma {:induction false} RiseSum(w: nat, s: seq<Block>, first: int, last: int, n: nat)
    requires Tiles(w, s, first, last) && n < |s| && Rises(w, s, n)
    ensures 0 <= s[n].net - first < Size(w, s[n])
    ensures Ones(s[n].net + Size(w, s[n]) - first) == n + 1
    decreases n
  {
    hide Ones, Pow2;
    if n == 0 {
      OnesAdd(0, Exp(w, s[0]));
      NoOnes();
    } else {
      RiseSum(w, s, first, last, n - 1);
      Pow2Less(Exp(w, s[n - 1]), Exp(w, s[n]));
      OnesAdd(s[n].net - first, Exp(w, s[n]));
    }
  }

  lemma NoOnes()
    ensures Ones(0) == 0
  {
  }

  /** Falling sizes are the one bits of their sum, highest first. */
  lemma {:induction false} FallSum(w: nat, s: seq<Block>, first: int, last: int, n: nat)
    requires Tiles(w, s, first, last) && n < |s| && Falls(w, s, n)
    ensures Size(w, s[n]) <= last + 1 - s[n].net < 2 * Size(w, s[n])
    ensures Ones(last + 1 - s[n].net) == |s| - n
    decreases |s| - n
  {
    hide Ones, Pow2;
    if n == |s| - 1 {
      OnesAdd(0, Exp(w, s[n]));
      NoOnes();
    } else {
      FallSum(w, s, first, last, n + 1);
      Pow2Less(Exp(w, s[n + 1]), Exp(w, s[n]));
      OnesAdd(last + 1 - s[n + 1].net, Exp(w, s[n]));
    }
  }

  // ----- the turn -----

  /** Two multiples of 2^k with one aligned further: the other one is at least 2^k away. */
  lemma MiddleGap(first: nat, last: nat, m: nat, k: nat)
    requires first < last && Aligned(m, k) && first < m <= last && m != Middle(first, last)
    ensures m < Middle(first, last) ==> m + Pow2(k) <= Middle(first, last)
    ensures m > Middle(first, last) ==> Middle(first, last) + Pow2(k) <= m
  {
    hide Aligned, Middle, TopBit, Pow2;
    MiddleBounds(first, last);
    var d, mid := TopBit(first, last), Middle(first, last);
    if d <= k {
      AlignedWeaken(m, d, k);
      if m < mid { AlignedGap(m, mid, d); } else { AlignedGap(mid, m, d); }
    } else {
      AlignedWeaken(mid, k, d);
      if m < mid { AlignedGap(m, mid, k); } else { AlignedGap(mid, m, k); }
    }
  }

  /** Sizes stop rising no earlier than at the middle. */
  lemma RisesBefore(w: nat, s: seq<Block>, first: nat, last: nat, i: nat)
    requires IsSummary(w, s, first, last) && first < last && i + 1 < |s| && s[i + 1].net < Middle(first, last)
    ensures Exp(w, s[i]) < Exp(w, s[i + 1])
  {
    hide Aligned, Middle, Pow2, Supernet, Ones;
    var b, c := s[i], s[i + 1];
    if Exp(w, b) >= Exp(w, c) {
      TilesBound(w, s, first, last, i);
      FallsFrom(w, s, first, last, i, |s| - 1);
      FallSum(w, s, first, last, i + 1);
      StartsOnDouble(w, b, c);
      MiddleBounds(first, last);
      MiddleGap(first, last, c.net, Exp(w, c) + 1);
      DoublePow2(Exp(w, c));
    }
  }

  /** Sizes start falling no later than at the middle. */
  lemma FallsAfter(w: nat, s: seq<Block>, first: nat, last: nat, i: nat)
    requires IsSummary(w, s, first, last) && first < last && i + 1 < |s| && Middle(first, last) < s[i + 1].net
    ensures Exp(w, s[i]) > Exp(w, s[i + 1])
  {
    hide Aligned, Middle, Pow2, Supernet, Ones;
    var b, c := s[i], s[i + 1];
    if Exp(w, b) <= Exp(w, c) {
      TilesBound(w, s, first, last, i);
      TilesBound(w, s, first, last, i + 1);
      RisesUpTo(w, s, first, last, i);
      RiseSum(w, s, first, last, i);
      if Exp(w, b) < Exp(w, c) { AlignedWeaken(c.net, Exp(w, b) + 1, Exp(w, c)); } else { StartsOnDouble(w, b, c); }
      MiddleBounds(first, last);
      MiddleGap(first, last, c.net, Exp(w, b) + 1);
      DoublePow2(Exp(w, b));
    }
  }

  lemma DoublePow2(e: nat)
    ensures Pow2(e + 1) == 2 * Pow2(e)
  {
  }

  lemma RisesUpTo(w: nat, s: seq<Block>, first: int, last: int, i: nat)
    requires IsSummary(w, s, first, last) && i + 1 < |s| && Exp(w, s[i]) <= Exp(w, s[i + 1])
    ensures Rises(w, s, i)
  {
    hide Tidy;
    forall j | 0 <= j < i ensures Exp(w, s[j]) < Exp(w, s[j + 1]) {
      if Exp(w, s[j]) >= Exp(w, s[j + 1]) { FallsFrom(w, s, first, last, j, |s| - 1); }
    }
  }

  /** A block over the middle is the whole range. */
  lemma OverMiddle(w: nat, s: seq<Block>, first: nat, last: nat, i: nat)
    requires IsSummary(w, s, first, last) && first < last && i < |s|
    requires s[i].net < Middle(first, last) < s[i].net + Size(w, s[i])
    ensures |s| == 1
    ensures Middle(first, last) == first + Pow2(TopBit(first, last)) && last + 1 == Middle(first, last) + Pow2(TopBit(first, last))
  {
    hide Aligned, Middle, TopBit, Pow2, Supernet;
    MiddleBounds(first, last);
    var b, mid, d, k := s[i], Middle(first, last), TopBit(first, last), Exp(w, s[i]);
    assert Valid(w, b);
    TilesBound(w, s, first, last, i);
    if k <= d {
      AlignedWeaken(mid, k, d);
      AlignedGap(b.net, mid, k);
    } else {
      DoublePow2(d);
      if d + 1 < k { Pow2Less(d + 1, k); }
      TilesBound(w, s, first, last, 0);
      TilesBound(w, s, first, last, |s| - 1);
    }
  }

  /** The block that starts at the middle. */
  lemma MiddleStarts(w: nat, s: seq<Block>, first: nat, last: nat) returns (n: nat)
    requires IsSummary(w, s, first, last) && first < last && |s| > 1
    ensures 0 < n < |s| && s[n].net == Middle(first, last)
  {
    hide Middle, Pow2, Tidy;
    MiddleBounds(first, last);
    TilesCovers(w, s, first, last);
    assert Covered(w, s, Middle(first, last));
    var b :| b in s && In(w, b, Middle(first, last));
    n := IndexOf(s, b);
    if b.net < Middle(first, last) { OverMiddle(w, s, first, last, n); }
  }

  lemma TurnShape(w: nat, s: seq<Block>, first: nat, last: nat) returns (n: nat)
    requires IsSummary(w, s, first, last) && first < last && |s| > 1
    ensures 0 < n < |s| && s[n].net == Middle(first, last) && s[n].net == s[n - 1].net + Size(w, s[n - 1])
    ensures Rises(w, s, n - 1) && Falls(w, s, n)
  {
    n := MiddleStarts(w, s, first, last);
    hide Middle, Pow2, Tidy;
    forall i | 0 <= i < n - 1 ensures Exp(w, s[i]) < Exp(w, s[i + 1]) {
      StartsInOrder(w, s, i + 1, n);
      RisesBefore(w, s, first, last, i);
    }
    forall i | n <= i < |s| - 1 ensures Exp(w, s[i]) > Exp(w, s[i + 1]) {
      StartsInOrder(w, s, n, i + 1);
      FallsAfter(w, s, first, last, i);
    }
  }

  /** Up to the middle the block sizes are the one bits of the length before it, lowest first; from
      there on they are the one bits of the length after it, highest first. */
  lemma TurnExact(w: nat, s: seq<Block>, first: nat, last: nat) returns (n: nat)
    requires IsSummary(w, s, first, last) && first < last && |s| > 1
    ensures 0 < n < |s| && s[n].net == Middle(first, last)
    ensures Rises(w, s, n - 1) && Falls(w, s, n)
    ensures n == Ones(Left(first, last)) && |s| - n == Ones(Right(first, last))
    ensures Exp(w, s[n - 1]) + 1 == BitLength(Left(first, last))
    ensures Exp(w, s[n]) + 1 == BitLength(Right(first, last))
  {
    n := TurnShape(w, s, first, last);
    RiseSum(w, s, first, last, n - 1);
    FallSum(w, s, first, last, n);
    hide Middle, Pow2, IsSummary, Ones, BitLength, Rises, Falls;
    assert Left(first, last) == s[n - 1].net + Size(w, s[n - 1]) - first;
    assert Right(first, last) == last + 1 - s[n].net;
    hide Left, Right;
    DoublePow2(Exp(w, s[n - 1]));
    DoublePow2(Exp(w, s[n]));
    BitLengthIs(Left(first, last), Exp(w, s[n - 1]));
    BitLengthIs(Right(first, last), Exp(w, s[n]));
  }

  lemma StartsInOrder(w: nat, s: seq<Block>, i: nat, j: nat)
    requires Tidy(w, s) && i < j < |s|
    ensures s[i].net < s[j].net
  {
    hide Aligned, Supernet;
    assert s[i].net + Size(w, s[i]) <= s[j].net;
  }

  /** Two neighbours are equal exactly when the lengths on both sides of the middle have their
      highest bit in the same place. */
  lemma FlatTurnExact(w: nat, s: seq<Block>, first: nat, last: nat)
    requires IsSummary(w, s, first, last) && first < last && |s| > 1
    ensures (exists i :: 0 <= i < |s| - 1 && s[i].plen == s[i + 1].plen) <==>
      BitLength(Left(first, last)) == BitLength(Right(first, last))
  {
    var n := TurnExact(w, s, first, last);
    hide Middle, Tidy, BitLength, Pow2, Ones;
    if i :| 0 <= i < |s| - 1 && s[i].plen == s[i + 1].plen {
      assert Exp(w, s[i]) == Exp(w, s[i + 1]);
      assert i == n - 1;
    }
    if s[n - 1].plen == s[n].plen { assert s[n - 1].plen == s[n - 1 + 1].plen; }
  }

  /** The exact number of blocks of a range of several addresses. */
  lemma SummaryCount(w: nat, s: seq<Block>, first: nat, last: nat)
    requires IsSummary(w, s, first, last) && first < last
    ensures |s| ==
      if Left(first, last) == Pow2(TopBit(first, last)) == Right(first, last) then 1
      else Ones(Left(first, last)) + Ones(Right(first, last))
  {
    if |s| > 1 {
      var n := TurnExact(w, s, first, last);
      hide Middle, TopBit, Pow2, Ones, BitLength, IsSummary;
      if Left(first, last) == Pow2(TopBit(first, last)) == Right(first, last) { NotTwoHalves(w, s, first, last, n); }
    } else {
      hide Middle, TopBit, Pow2, Ones;
      MiddleBounds(first, last);
      TilesBound(w, s, first, last, 0);
      OverMiddle(w, s, first, last, 0);
    }
  }

  /** Two halves of one block would have been one block. */
  lemma NotTwoHalves(w: nat, s: seq<Block>, first: nat, last: nat, n: nat)
    requires IsSummary(w, s, first, last) && first < last && 0 < n < |s| && s[n].net == Middle(first, last)
    requires Rises(w, s, n - 1) && Falls(w, s, n)
    ensures !(Left(first, last) == Pow2(TopBit(first, last)) == Right(first, last))
  {
    hide Middle, TopBit, Pow2, Ones, BitLength, Supernet, Aligned;
    var mid, d := Middle(first, last), TopBit(first, last);
    if Left(first, last) == Pow2(d) == Right(first, last) {
      var b, c := s[n - 1], s[n];
      assert Valid(w, b) && Valid(w, c) && b.net + Size(w, b) == c.net;
      assert Supernet(w, b) != Supernet(w, c) by { assert c == s[n - 1 + 1]; }
      RiseSum(w, s, first, last, n - 1);
      FallSum(w, s, first, last, n);
      hide IsSummary, Rises, Falls;
      MiddleBounds(first, last);
      PowerBetween(Exp(w, b), d);
      PowerBetween(Exp(w, c), d);
      AlignedStep(mid, d);
      HalvesShareSupernet(w, b, c);
    }
  }

  lemma PowerBetween(e: nat, d: nat)
    requires Pow2(e) <= Pow2(d) < 2 * Pow2(e)
    ensures e == d
  {
    if e < d { Pow2Less(e, d); }
    if d < e { Pow2Less(d, e); }
  }

  /** The bound on the length is reached in every address space: all addresses but the first and
      the last one take 2w - 2 blocks. */
  lemma LongestSummary(w: nat, s: seq<Block>)
    requires w >= 2 && IsSummary(w, s, 1, Pow2(w) - 2)
    ensures |s| == 2 * w - 2
  {
    hide *;
    WideRange(w);
    var last: nat := Pow2(w) - 2;
    SummaryCount(w, s, 1, last);
    OnesOfOnes(w - 1);
    assert Left(1, last) != Pow2(TopBit(1, last));
  }

  lemma WideRange(w: nat)
    requires w >= 2
    ensures 1 < Pow2(w) - 2
    ensures TopBit(1, Pow2(w) - 2) == w - 1 && Middle(1, Pow2(w) - 2) == Pow2(w - 1)
    ensures Left(1, Pow2(w) - 2) == Right(1, Pow2(w) - 2) == Pow2(w - 1) - 1
  {
    DoublePow2(w - 1);
    DoublePow2(w - 2);
    assert Pow2(w) - 2 > 1;
    hide Middle, TopBit, Pow2, Aligned;
    WideTop(w);
    var last := Pow2(w) - 2;
    MiddleBounds(1, last);
    var m, d := Middle(1, last), w - 1;
    AlignedZero(d);
    AlignedGap(0, m, d);
    AlignedPow2(d, d);
    if m > Pow2(d) { AlignedGap(Pow2(d), m, d); }
  }

  lemma WideTop(w: nat)
    requires w >= 2 && Pow2(w) == 2 * Pow2(w - 1) && 1 < Pow2(w) - 2
    ensures TopBit(1, Pow2(w) - 2) == w - 1
  {
    DoublePow2(w - 2);
    var last := Pow2(w) - 2;
    hide Middle, TopBit, Pow2;
    MiddleBounds(1, last);
    var m, d := Middle(1, last), TopBit(1, last);
    if d + 1 < w { Pow2Less(d, w - 1); }
    AlignedZero(d);
    AlignedGap(0, m, d);
    if w < d { Pow2Less(w, d); }
  }
}
