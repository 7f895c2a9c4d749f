/** Turning an address range into prefix blocks, in the newer and the older
    address library. */
module Summarize {
  import opened Bits
  import opened Blocks
  import opened Netmasks
  import opened Results

  /** The blocks follow one another without a gap, from `first` up to `last`. */
  ghost predicate Tiles(w: nat, s: seq<Block>, first: int, last: int) {
    && (forall b :: b in s ==> b.plen <= w)
    && (if s == [] then first == last + 1 else s[0].net == first && End(w, s) == last + 1)
    && forall i :: 0 <= i < |s| - 1 ==> s[i].net + Size(w, s[i]) == s[i + 1].net
  }

  ghost function End(w: nat, s: seq<Block>): nat
    requires s != [] && s[|s| - 1].plen <= w
  {
    s[|s| - 1].net + Size(w, s[|s| - 1])
  }

  /** The list a summary of [first, last] has to be: consecutive blocks, no two of which merge. */
  ghost predicate IsSummary(w: nat, s: seq<Block>, first: int, last: int) {
    Tiles(w, s, first, last) && Tidy(w, s)
  }

  lemma CoveredAppend(w: nat, front: seq<Block>, b: Block, a: int)
    ensures Covered(w, front + [b], a) <==> Covered(w, front, a) || In(w, b, a)
  {
    if Covered(w, front, a) {
      var c :| c in front && In(w, c, a);
      assert c in front + [b];
    }
    assert b in front + [b];
  }

  lemma {:induction false} TilesCovers(w: nat, s: seq<Block>, first: int, last: int)
    requires Tiles(w, s, first, last)
    ensures first <= last + 1
    ensures forall a: int :: Covered(w, s, a) <==> first <= a <= last
    decreases |s|
  {
    if s != [] {
      var n := |s| - 1;
      var front, b := s[..n], s[n];
      assert s == front + [b];
      assert forall c :: c in front ==> c in s;
      TilesCovers(w, front, first, b.net - 1);
      forall a: int ensures Covered(w, s, a) <==> first <= a <= last {
        CoveredAppend(w, front, b, a);
      }
    }
  }

  lemma TilesBound(w: nat, s: seq<Block>, first: int, last: int, i: nat)
    requires Tiles(w, s, first, last) && i < |s|
    ensures first <= s[i].net && s[i].net + Size(w, s[i]) <= last + 1
  {
    TilesCovers(w, s, first, last);
    assert s[i] in s && In(w, s[i], s[i].net) && In(w, s[i], s[i].net + Size(w, s[i]) - 1);
    assert Covered(w, s, s[i].net) && Covered(w, s, s[i].net + Size(w, s[i]) - 1);
  }

  lemma TilesAppend(w: nat, s: seq<Block>, first: int, b: Block)
    requires b.plen <= w && Tiles(w, s, first, b.net - 1)
    ensures Tiles(w, s + [b], first, b.net + Size(w, b) - 1)
  {
  }

  lemma TidyAppend(w: nat, s: seq<Block>, b: Block)
    requires Tidy(w, s) && Valid(w, b)
    requires s != [] ==> End(w, s) <= b.net && Supernet(w, s[|s| - 1]) != Supernet(w, b)
    ensures Tidy(w, s + [b])
  {
    var t := s + [b];
    forall i, j | 0 <= i < j < |t| ensures t[i].net + Size(w, t[i]) <= t[j].net {
      if j == |s| {
        assert i < |s| - 1 ==> s[i].net + Size(w, s[i]) <= s[|s| - 1].net;
      }
    }
  }

  /** The block chosen at `net`: it is aligned, it fits below `last`, and the next size up does not. */
  ghost predicate LargestFit(w: nat, b: Block, last: int) {
    && Valid(w, b) && b.net + Size(w, b) <= last + 1
    && (b.plen > 0 ==> !Aligned(b.net, w - b.plen + 1) || b.net + Pow2(w - b.plen + 1) > last + 1)
  }

  /** Two consecutive largest fits never merge. */
  lemma LargestFitsDoNotMerge(w: nat, b: Block, c: Block, last: int)
    requires LargestFit(w, b, last) && LargestFit(w, c, last) && c.net == b.net + Size(w, b)
    ensures Supernet(w, b) != Supernet(w, c)
  {
    if b.plen > 0 && Supernet(w, b) == Supernet(w, c) {
      HalfOfSupernet(w, b);
      HalfOfSupernet(w, c);
      ClearBounds(b.net, w - b.plen + 1);
    }
  }

  lemma AddFit(w: nat, s: seq<Block>, first: int, b: Block)
    requires IsSummary(w, s, first, b.net - 1) && Valid(w, b)
    requires s != [] ==> Supernet(w, s[|s| - 1]) != Supernet(w, b)
    ensures IsSummary(w, s + [b], first, b.net + Size(w, b) - 1)
  {
    TilesAppend(w, s, first, b);
    TidyAppend(w, s, b);
  }

  /** The summary is unique and canonical: no other list of blocks covers the range with fewer. */
  lemma SummaryIsBest(w: nat, s: seq<Block>, first: int, last: int, other: seq<Block>)
    requires IsSummary(w, s, first, last)
    requires AllValid(w, other) && forall a: int :: Covered(w, other, a) <==> first <= a <= last
    ensures |s| <= |other|
    ensures Tidy(w, other) ==> s == other
  {
    TilesCovers(w, s, first, last);
    TidyIsCanonical(w, s);
    CanonicalShortest(w, s, s, other);
    if Tidy(w, other) {
      TidyIsCanonical(w, other);
      CanonicalUnique(w, s, s, other, other);
    }
  }

  lemma SummaryUnique(w: nat, s: seq<Block>, t: seq<Block>, first: int, last: int)
    requires IsSummary(w, s, first, last) && IsSummary(w, t, first, last)
    ensures s == t
  {
    TilesCovers(w, t, first, last);
    SummaryIsBest(w, s, first, last, t);
  }

  /** The newer generator: number of trailing zeroes and bit length give the block in one step. */
  method SummarizeAddressRange(w: nat, first: nat, last: nat) returns (r: Result<seq<Block>, NetError>)
    requires first < Pow2(w) && last < Pow2(w)
    ensures first > last ==> r == Err(BadRange)
    ensures first <= last ==> r.Ok?
    ensures r.Ok? ==> IsSummary(w, r.value, first, last)
  {
    hide Aligned, Pow2, Supernet, FitBits;
    if first > last {
      return Err(BadRange);
    }
    var out: seq<Block>, firstInt: nat := [], first;
    while firstInt <= last
      invariant first <= firstInt <= last + 1
      invariant IsSummary(w, out, first, firstInt - 1)
      invariant out != [] ==> LargestFit(w, out[|out| - 1], last)
      decreases last + 1 - firstInt
    {
      NewestFit(w, firstInt, last);
      var nbits := FitBits(w, firstInt, last);
      var net := Block(firstInt, w - nbits);
      if out != [] { LargestFitsDoNotMerge(w, out[|out| - 1], net, last); }
      AddFit(w, out, first, net);
      out := out + [net];
      firstInt := firstInt + Pow2(nbits);
      if firstInt - 1 == AllOnes(w) {
        break;
      }
    }
    r := Ok(out);
  }

  /** The number of host bits of the next block: alignment or remaining length, whichever is less. */
  function FitBits(w: nat, firstInt: nat, last: nat): nat
    requires firstInt <= last
  {
    BitLengthBounds(last - firstInt + 1);
    var zeros := CountRighthandZeroBits(firstInt, w);
    var fits := BitLength(last - firstInt + 1) - 1;
    if zeros < fits then zeros else fits
  }

  lemma NewestFit(w: nat, firstInt: nat, last: nat)
    requires firstInt <= last < Pow2(w)
    ensures FitBits(w, firstInt, last) <= w
    ensures LargestFit(w, Block(firstInt, w - FitBits(w, firstInt, last)), last)
  {
    hide Aligned, BitLength, CountRighthandZeroBits;
    var zeros := CountRighthandZeroBits(firstInt, w);
    CountIsZeroCount(firstInt, w);
    BitLengthBounds(last - firstInt + 1);
    var fits := BitLength(last - firstInt + 1) - 1;
    var nbits := FitBits(w, firstInt, last);
    AlignedWeaken(firstInt, nbits, zeros);
    if nbits < fits { Pow2Less(nbits, fits); }
  }

  /** The older loop: start at the alignment of `first` and shrink until the block fits. */
  method SummarizeOlder(w: nat, first: nat, last: nat) returns (r: Result<seq<Block>, NetError>)
    requires first < Pow2(w) && last < Pow2(w)
    ensures first > last ==> r == Err(BadRange)
    ensures first <= last ==> r.Ok?
    ensures r.Ok? ==> IsSummary(w, r.value, first, last)
  {
    hide Aligned, Pow2, Supernet;
    if first > last {
      return Err(BadRange);
    }
    var networks: seq<Block>, firstInt: nat := [], first;
    while firstInt <= last
      invariant first <= firstInt <= last + 1
      invariant IsSummary(w, networks, first, firstInt - 1)
      invariant networks != [] ==> LargestFit(w, networks[|networks| - 1], last)
      decreases last + 1 - firstInt
    {
      var nbits, current := ShrinkToFit(w, firstInt, last);
      var plen := GetPrefixLength(firstInt, current, w);
      PrefixOfEnds(w, firstInt, nbits, plen);
      var net := Block(firstInt, plen);
      if networks != [] { LargestFitsDoNotMerge(w, networks[|networks| - 1], net, last); }
      AddFit(w, networks, first, net);
      networks := networks + [net];
      if current == AllOnes(w) {
        break;
      }
      firstInt := current + 1;
    }
    r := Ok(networks);
  }

  /** The inner loop: the last address of the largest block at `firstInt` that ends by `last`. */
  method ShrinkToFit(w: nat, firstInt: nat, last: nat) returns (ghost k: nat, current: nat)
    requires firstInt <= last < Pow2(w)
    ensures firstInt <= current <= last
    ensures k <= w && Aligned(firstInt, k) && current == firstInt + Pow2(k) - 1
    ensures LargestFit(w, Block(firstInt, w - k), last)
  {
    hide Aligned, CountRighthandZeroBits;
    var count := CountByShifting(firstInt, w);
    if Aligned(firstInt, w) { AlignedSmall(firstInt, w); }
    var nbits: int := count.value;
    CountIsZeroCount(firstInt, w);
    ghost var zeros: nat := nbits;
    current := firstInt;
    while nbits >= 0
      invariant -1 <= nbits <= zeros
      invariant nbits < zeros ==> current == firstInt + Pow2(nbits + 1) - 1 && current > last
    {
      current := firstInt + (Pow2(nbits) - 1);
      nbits := nbits - 1;
      if current <= last {
        break;
      }
    }
    k := nbits + 1;
    AlignedWeaken(firstInt, k, zeros);
  }

  /** Common leading bits of two numbers: dropping as many of the low bits as are left makes the
      numbers equal, and dropping fewer does not. */
  method GetPrefixLength(number1: nat, number2: nat, bits: nat) returns (r: nat)
    ensures r <= bits
    ensures r > 0 || (number1 < Pow2(bits) && number2 < Pow2(bits)) ==> Clear(number1, bits - r) == Clear(number2, bits - r)
    ensures forall i: nat :: i < bits - r ==> Clear(number1, i) != Clear(number2, i)
  {
    for i := 0 to bits
      invariant forall j: nat :: j < i ==> Clear(number1, j) != Clear(number2, j)
    {
      ShiftedEqual(number1, number2, i);
      if ShiftRight(number1, i) == ShiftRight(number2, i) {
        return bits - i;
      }
    }
    r := 0;
    if number1 < Pow2(bits) && number2 < Pow2(bits) {
      ClearOfSmall(number1, bits);
      ClearOfSmall(number2, bits);
    }
  }

  lemma {:induction false} ShiftedEqual(x: int, y: int, k: nat)
    ensures ShiftRight(x, k) == ShiftRight(y, k) <==> Clear(x, k) == Clear(y, k)
    decreases k
  {
    if k > 0 { ShiftedEqual(x / 2, y / 2, k - 1); }
  }

  /** The common leading bits of the two ends of a block are those of its prefix. */
  lemma PrefixOfEnds(w: nat, first: nat, k: nat, r: nat)
    requires k <= w && Aligned(first, k) && first + Pow2(k) <= Pow2(w) && r <= w
    requires Clear(first, w - r) == Clear(first + Pow2(k) - 1, w - r)
    requires forall i: nat :: i < w - r ==> Clear(first, i) != Clear(first + Pow2(k) - 1, i)
    ensures r == w - k
  {
    hide Aligned, Pow2, Clear, ShiftRight;
    EndsMeet(first, k, k);
    ShiftedEqual(first, first + Pow2(k) - 1, k);
    EndsMeet(first, k, w - r);
    ShiftedEqual(first, first + Pow2(k) - 1, w - r);
  }

  /** The two ends of an aligned block of size 2^k agree above bit i exactly when i >= k. */
  lemma {:induction false} EndsMeet(x: int, k: nat, i: nat)
    requires Aligned(x, k)
    ensures ShiftRight(x, i) == ShiftRight(x + Pow2(k) - 1, i) <==> k <= i
    decreases i
  {
    if i > 0 && k > 0 {
      EndsMeet(x / 2, k - 1, i - 1);
      assert (x + Pow2(k) - 1) / 2 == x / 2 + Pow2(k - 1) - 1;
    }
  }

  // ----- the shape and length of a summary -----

  function Exp(w: nat, b: Block): nat
    requires b.plen <= w
  {
    w - b.plen
  }

  /** After a block that is not smaller than its successor, sizes strictly fall. */
  lemma FallsOn(w: nat, s: seq<Block>, first: int, last: int, i: nat)
    requires IsSummary(w, s, first, last) && i + 2 < |s|
    requires Exp(w, s[i]) >= Exp(w, s[i + 1])
    ensures Exp(w, s[i + 1]) > Exp(w, s[i + 2])
  {
    hide Aligned, Clear, Supernet, Covered;
    var a, b, c := s[i], s[i + 1], s[i + 2];
    var e := Exp(w, b);
    assert Valid(w, a) && Valid(w, b) && Valid(w, c);
    assert a.net + Pow2(Exp(w, a)) == b.net && b.net + Pow2(e) == c.net;
    BlockEnd(w, c);
    StartsOnDouble(w, a, b);
    // so c starts on an odd multiple of it, and cannot be larger
    if Exp(w, c) > e {
      AlignedWeaken(c.net, e + 1, Exp(w, c));
      AlignedGap(b.net, c.net, e + 1);
    } else if Exp(w, c) == e {
      HalvesShareSupernet(w, b, c);
    }
  }

  /** A block that follows one at least as large, without merging, starts on a multiple of twice its size. */
  lemma StartsOnDouble(w: nat, a: Block, b: Block)
    requires Valid(w, a) && Valid(w, b) && a.net + Size(w, a) == b.net && a.plen <= b.plen
    requires Supernet(w, a) != Supernet(w, b)
    ensures Aligned(b.net, w - b.plen + 1)
  {
    hide Aligned, Pow2, Clear;
    var e := w - b.plen;
    if a.plen < b.plen {
      AlignedWeaken(a.net, e + 1, w - a.plen);
      AlignedPow2(e + 1, w - a.plen);
      AlignedSum(a.net, Pow2(w - a.plen), e + 1);
    } else {
      if Aligned(a.net, e + 1) { HalvesShareSupernet(w, a, b); }
      AlignedStep(a.net, e);
    }
  }

  lemma HalvesShareSupernet(w: nat, b: Block, c: Block)
    requires Valid(w, b) && Valid(w, c) && b.plen == c.plen && c.net == b.net + Size(w, b)
    requires Aligned(b.net, w - b.plen + 1)
    ensures Supernet(w, b) == Supernet(w, c)
  {
    BlockEnd(w, c);
    ClearUnique(b.net, b.net, w - b.plen + 1);
    ClearUnique(c.net, b.net, w - b.plen + 1);
  }

  lemma FullBlock(w: nat, b: Block, c: Block)
    requires Valid(w, b) && Valid(w, c) && b.net + Size(w, b) == c.net
    ensures b.plen > 0
  {
  }

  /** Sizes strictly rise over the first k blocks and strictly fall from there on;
      only the two blocks at the turn may be equal. */
  ghost predicate RisesThenFalls(w: nat, s: seq<Block>, k: nat)
    requires forall b :: b in s ==> b.plen <= w
  {
    && k <= |s|
    && (forall i :: 0 <= i < k - 1 ==> Exp(w, s[i]) < Exp(w, s[i + 1]))
    && (forall i :: k <= i < |s| - 1 ==> Exp(w, s[i]) > Exp(w, s[i + 1]))
    && (0 < k < |s| ==> Exp(w, s[k - 1]) >= Exp(w, s[k]))
  }

  lemma {:induction false} SummaryShape(w: nat, s: seq<Block>, first: int, last: int) returns (k: nat)
    requires IsSummary(w, s, first, last)
    ensures RisesThenFalls(w, s, k)
    ensures s != [] ==> k > 0
  {
    hide Tidy, Pow2;
    k := 0;
    if s != [] { k := RiseEnd(w, s, 1); }
    if 0 < k < |s| {
      FallsFrom(w, s, first, last, k - 1, |s| - 1);
    }
  }

  /** The end of the strictly rising run that starts the list. */
  lemma {:induction false} RiseEnd(w: nat, s: seq<Block>, n: nat) returns (k: nat)
    requires 0 < n <= |s| && (forall b :: b in s ==> b.plen <= w)
    requires forall i :: 0 <= i < n - 1 ==> Exp(w, s[i]) < Exp(w, s[i + 1])
    ensures 0 < k <= |s|
    ensures forall i :: 0 <= i < k - 1 ==> Exp(w, s[i]) < Exp(w, s[i + 1])
    ensures k < |s| ==> Exp(w, s[k - 1]) >= Exp(w, s[k])
    decreases |s| - n
  {
    if n < |s| && Exp(w, s[n - 1]) < Exp(w, s[n]) {
      k := RiseEnd(w, s, n + 1);
    } else {
      k := n;
    }
  }

  lemma {:induction false} FallsFrom(w: nat, s: seq<Block>, first: int, last: int, i: nat, n: nat)
    requires IsSummary(w, s, first, last) && i + 1 <= n < |s| && Exp(w, s[i]) >= Exp(w, s[i + 1])
    ensures forall j :: i + 1 <= j < n ==> Exp(w, s[j]) > Exp(w, s[j + 1])
    decreases n
  {
    hide Valid, Covered, Tiles;
    if i + 1 < n {
      FallsFrom(w, s, first, last, i, n - 1);
      FallsOn(w, s, first, last, n - 2);
    }
  }

  lemma {:induction false} RiseCount(w: nat, s: seq<Block>, k: nat)
    requires 0 < k <= |s| && (forall b :: b in s ==> b.plen <= w)
    requires forall i :: 0 <= i < k - 1 ==> Exp(w, s[i]) < Exp(w, s[i + 1])
    ensures k <= Exp(w, s[k - 1]) + 1
    decreases k
  {
    if k > 1 { RiseCount(w, s, k - 1); }
  }

  lemma {:induction false} FallCount(w: nat, s: seq<Block>, k: nat)
    requires k < |s| && (forall b :: b in s ==> b.plen <= w)
    requires forall i :: k <= i < |s| - 1 ==> Exp(w, s[i]) > Exp(w, s[i + 1])
    ensures |s| - k <= Exp(w, s[k]) + 1
    decreases |s| - k
  {
    if k + 1 < |s| { FallCount(w, s, k + 1); }
  }

  /** A summary of a range of w-bit addresses has at most 2w - 2 blocks (one, when w is 0 or 1). */
  lemma SummaryLength(w: nat, s: seq<Block>, first: int, last: int)
    requires IsSummary(w, s, first, last)
    ensures |s| <= 1 || |s| <= 2 * w - 2
  {
    if |s| > 1 {
      hide Aligned, Pow2, Supernet;
      var k := SummaryShape(w, s, first, last);
      RiseCount(w, s, k);
      var top := s[k - 1];
      assert Valid(w, top);
      if k < |s| {
        FallCount(w, s, k);
        TurnAtHalf(w, s, first, last, k);
      } else {
        FirstIsBelow(w, s);
        if Exp(w, top) == w { AlignedSmall(top.net, w); }
      }
    }
  }

  /** When the turn is at the lower half of the space, it comes first and the rest is in the other half. */
  lemma TurnAtHalf(w: nat, s: seq<Block>, first: int, last: int, k: nat)
    requires IsSummary(w, s, first, last) && 0 < k < |s| && Exp(w, s[k - 1]) >= Exp(w, s[k])
    ensures Exp(w, s[k - 1]) < w
    ensures Exp(w, s[k - 1]) == w - 1 ==> k == 1 && Exp(w, s[k]) < w - 1
  {
    hide Aligned, Supernet;
    var top := s[k - 1];
    assert k > 1 ==> s[k - 2].net + Size(w, s[k - 2]) == top.net;
    assert Valid(w, top) && Valid(w, s[k]);
    assert Exp(w, top) < w by { FullBlock(w, top, s[k]); }
    if Exp(w, top) == w - 1 {
      HalfStarts(w, top);
      BlockEnd(w, s[k]);
      if Exp(w, s[k]) == w - 1 {
        AlignedZero(w);
        HalvesShareSupernet(w, top, s[k]);
      }
    }
  }

  lemma FirstIsBelow(w: nat, s: seq<Block>)
    requires AllValid(w, s) && Ordered(w, s) && |s| > 1
    ensures s[|s| - 1].net > 0
  {
    assert s[0].net + Size(w, s[0]) <= s[|s| - 1].net;
  }

  lemma HalfStarts(w: nat, b: Block)
    requires w > 0 && Valid(w, b) && b.plen == 1
    ensures b.net == 0 || b.net == Pow2(w - 1)
  {
    AlignedZero(w - 1);
    if b.net > 0 {
      AlignedGap(0, b.net, w - 1);
      AlignedPow2(w - 1, w - 1);
      if b.net > Pow2(w - 1) { AlignedGap(Pow2(w - 1), b.net, w - 1); }
    }
  }
}
