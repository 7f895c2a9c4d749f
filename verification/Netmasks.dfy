/** Netmask arithmetic shared by the two address libraries: bit-level
    definitions as written there, and the block arithmetic they compute. */
module Netmasks {
  import opened Bits
  import opened Blocks
  import opened Results

  datatype NetError = InvalidNetmask | BadNewPrefix | BothGiven | BadDiff | BadRange | NotContained

  function AllOnes(w: nat): nat {
    Pow2(w) - 1
  }

  /** The netmask of a prefix length. */
  function IntFromPrefix(w: nat, plen: nat): nat {
    Xor(AllOnes(w), ShiftRightNat(AllOnes(w), plen))
  }

  function ShiftRightNat(x: nat, k: nat): nat
    decreases k
  {
    if k == 0 then x else ShiftRightNat(x / 2, k - 1)
  }

  lemma {:induction false} ShiftRightNatIs(x: nat, k: nat)
    ensures ShiftRightNat(x, k) == ShiftRight(x, k)
    decreases k
  {
    if k > 0 { ShiftRightNatIs(x / 2, k - 1); }
  }

  /** A netmask is `plen` ones followed by `w - plen` zeroes. */
  lemma MaskValue(w: nat, plen: nat)
    requires plen <= w
    ensures IntFromPrefix(w, plen) == Pow2(w) - Pow2(w - plen)
  {
    ShiftRightNatIs(AllOnes(w), plen);
    ShiftRightOnes(w, plen);
    if plen > 0 { Pow2Less(w - plen, w); }
    XorOnes(Pow2(w - plen) - 1, w);
  }

  // ----- counting trailing zero bits -----

  function CountRighthandZeroBits(number: nat, bits: nat): nat {
    if number == 0 then bits
    else
      var ones := BitLength(And(Not(number), number - 1));
      if bits < ones then bits else ones
  }

  /** `k` is the number of trailing zero bits of `number`, but at most `bits`. */
  ghost predicate IsZeroCount(number: nat, bits: nat, k: nat) {
    k <= bits && Aligned(number, k) && (k < bits ==> !Aligned(number, k + 1))
  }

  lemma ZeroCountUnique(number: nat, bits: nat, j: nat, k: nat)
    requires IsZeroCount(number, bits, j) && IsZeroCount(number, bits, k)
    ensures j == k
  {
    if j < k { AlignedWeaken(number, j + 1, k); }
    if k < j { AlignedWeaken(number, k + 1, j); }
  }

  lemma {:induction false} OrderOf(x: nat) returns (k: nat)
    requires x > 0
    ensures Aligned(x, k) && !Aligned(x, k + 1)
  {
    if x % 2 == 1 {
      k := 0;
    } else {
      k := OrderOf(x / 2);
      k := k + 1;
    }
  }

  lemma CountIsZeroCount(number: nat, bits: nat)
    ensures IsZeroCount(number, bits, CountRighthandZeroBits(number, bits))
  {
    if number == 0 {
      AlignedZero(bits);
    } else {
      var k := OrderOf(number);
      TrailingZeroMask(number, k);
      BitLengthOfOnes(k);
      if bits < k { AlignedWeaken(number, bits, k); }
    }
  }

  /** The older library counts by shifting. It finds the same number wherever some of the low
      `bits` bits is set, and for zero; otherwise it runs off its loop without an answer. */
  method CountByShifting(number: nat, bits: nat) returns (r: Option<nat>)
    ensures r == if number != 0 && Aligned(number, bits) then None else Some(CountRighthandZeroBits(number, bits))
  {
    hide CountRighthandZeroBits, ShiftRight;
    CountIsZeroCount(number, bits);
    if number == 0 {
      AlignedZero(bits);
      ZeroCountUnique(number, bits, bits, CountRighthandZeroBits(number, bits));
      return Some(bits);
    }
    for i := 0 to bits
      invariant Aligned(number, i)
    {
      ShiftedBit(number, i);
      if ShiftRight(number, i) % 2 == 1 {
        ZeroCountUnique(number, bits, i, CountRighthandZeroBits(number, bits));
        if Aligned(number, bits) { AlignedWeaken(number, i + 1, bits); }
        return Some(i);
      }
    }
    r := None;
  }

  lemma {:induction false} ShiftedBit(x: int, k: nat)
    requires Aligned(x, k)
    ensures Aligned(x, k + 1) <==> ShiftRight(x, k) % 2 == 0
    decreases k
  {
    if k > 0 {
      ShiftedBit(x / 2, k - 1);
    } else {
      AlignedTrivial(x / 2);
    }
  }

  // ----- reading a netmask back -----

  function PrefixFromInt(w: nat, ip: nat): Result<nat, NetError>
    requires ip < Pow2(w)
  {
    CountIsZeroCount(ip, w);
    var zeroes := CountRighthandZeroBits(ip, w);
    var plen := w - zeroes;
    if ShiftRightNat(ip, zeroes) != Pow2(plen) - 1 then Err(InvalidNetmask) else Ok(plen)
  }

  /** Exactly the `w + 1` netmasks are accepted, each with its own prefix length. */
  lemma PrefixFromIntExact(w: nat, ip: nat, plen: nat)
    requires ip < Pow2(w) && plen <= w
    ensures PrefixFromInt(w, ip) == Ok(plen) <==> ip == IntFromPrefix(w, plen)
  {
    hide CountRighthandZeroBits, ShiftRight, ShiftRightNat, IntFromPrefix, Clear, Pow2, Aligned;
    var z := CountRighthandZeroBits(ip, w);
    assert PrefixFromInt(w, ip) == Ok(w - z) <==> ip == Pow2(w) - Pow2(z) by {
      CountIsZeroCount(ip, w);
      ShiftRightNatIs(ip, z);
      ShiftedOnes(ip, w, z);
      ClearUnique(ip, ip, z);
    }
    MaskValue(w, plen);
    CountIsZeroCount(ip, w);
    if ip == IntFromPrefix(w, plen) {
      MaskZeroCount(w, plen);
      ZeroCountUnique(ip, w, w - plen, z);
    }
  }

  /** Shifting out z bits leaves all ones exactly when the rest is a block of ones. */
  lemma {:induction false} ShiftedOnes(x: int, w: nat, z: nat)
    requires z <= w
    ensures ShiftRight(x, z) == Pow2(w - z) - 1 <==> Clear(x, z) == Pow2(w) - Pow2(z)
    decreases z
  {
    if z > 0 { ShiftedOnes(x / 2, w - 1, z - 1); }
  }

  lemma MaskZeroCount(w: nat, plen: nat)
    requires plen <= w
    ensures Pow2(w - plen) <= Pow2(w)
    ensures IsZeroCount(Pow2(w) - Pow2(w - plen), w, w - plen)
  {
    var k := w - plen;
    if plen > 0 {
      Pow2Less(k, w);
      AlignedPow2(k, k);
      AlignedPow2(k, w);
      AlignedSum(Pow2(w), Pow2(k), k);
      AlignedPow2(k + 1, w);
      if Aligned(Pow2(w) - Pow2(k), k + 1) {
        AlignedGap(Pow2(w) - Pow2(k), Pow2(w), k + 1);
      }
    } else {
      AlignedZero(w);
    }
  }

  /** Every prefix length survives the trip through its netmask. */
  lemma NetmaskRoundTrip(w: nat, plen: nat)
    requires plen <= w
    ensures IntFromPrefix(w, plen) < Pow2(w)
    ensures PrefixFromInt(w, IntFromPrefix(w, plen)) == Ok(plen)
  {
    MaskValue(w, plen);
    PrefixFromIntExact(w, IntFromPrefix(w, plen), plen);
  }

  /** The older library strips trailing zeroes in a loop; the outcome is the same. */
  method PrefixByStripping(w: nat, ipInt: nat) returns (r: Result<nat, NetError>)
    requires ipInt < Pow2(w)
    ensures r == PrefixFromInt(w, ipInt)
  {
    hide CountRighthandZeroBits, ShiftRight;
    var ip: nat, plen: nat := ipInt, w;
    ShiftRightNatIs(ipInt, 0);
    while plen > 0
      invariant plen <= w
      invariant Aligned(ipInt, w - plen)
      invariant ip == ShiftRightNat(ipInt, w - plen)
    {
      ShiftRightNatIs(ipInt, w - plen);
      ShiftedBit(ipInt, w - plen);
      if ip % 2 == 1 {
        break;
      }
      ShiftRightNatStep(ipInt, w - plen);
      ip := ip / 2;
      plen := plen - 1;
    }
    CountIsZeroCount(ipInt, w);
    ZeroCountUnique(ipInt, w, w - plen, CountRighthandZeroBits(ipInt, w));
    r := if ip == Pow2(plen) - 1 then Ok(plen) else Err(InvalidNetmask);
  }

  lemma {:induction false} ShiftRightNatStep(x: nat, k: nat)
    ensures ShiftRightNat(x, k + 1) == ShiftRightNat(x, k) / 2
    decreases k
  {
    if k > 0 { ShiftRightNatStep(x / 2, k - 1); }
  }

  /** A mask given as an address: tried as a netmask first, then inverted as a hostmask. */
  function PrefixFromMask(w: nat, ip: nat): Result<nat, NetError>
    requires ip < Pow2(w)
  {
    if PrefixFromInt(w, ip).Ok? then PrefixFromInt(w, ip)
    else
      XorOnes(ip, w);
      PrefixFromInt(w, Xor(ip, AllOnes(w)))
  }

  /** A hostmask reads as its own prefix length, except the two that are also
      netmasks: all zeroes reads as /0 and all ones as /w. Nothing else is accepted. */
  lemma MaskExact(w: nat, ip: nat, plen: nat)
    requires ip < Pow2(w) && plen <= w
    ensures PrefixFromMask(w, ip) == Ok(plen) <==>
            ip == IntFromPrefix(w, plen) || (ip == AllOnes(w) - IntFromPrefix(w, plen) && 0 < plen < w)
  {
    assert PrefixFromInt(w, ip).Ok? ==> PrefixFromInt(w, ip).value <= w;
    hide PrefixFromInt, IntFromPrefix, Pow2, Xor;
    XorOnes(ip, w);
    PrefixFromIntExact(w, ip, plen);
    if PrefixFromInt(w, ip).Ok? {
      PrefixFromIntExact(w, ip, PrefixFromInt(w, ip).value);
      if 0 < plen < w { MaskNotHostmask(w, PrefixFromInt(w, ip).value, plen); }
    } else {
      NotAnEnd(w, ip);
      PrefixFromIntExact(w, AllOnes(w) - ip, plen);
      MaskValue(w, plen);
    }
  }

  /** Whatever is not a netmask is neither all zeroes nor all ones. */
  lemma NotAnEnd(w: nat, ip: nat)
    requires ip < Pow2(w) && PrefixFromInt(w, ip).Err?
    ensures ip != 0 && ip != AllOnes(w)
    ensures IntFromPrefix(w, 0) == 0 && IntFromPrefix(w, w) == AllOnes(w)
  {
    hide PrefixFromInt, IntFromPrefix;
    MaskValue(w, 0);
    MaskValue(w, w);
    NetmaskRoundTrip(w, 0);
    NetmaskRoundTrip(w, w);
  }

  /** A hostmask other than all zeroes and all ones is not a netmask. */
  lemma MaskNotHostmask(w: nat, q: nat, p: nat)
    requires q <= w && 0 < p < w
    ensures IntFromPrefix(w, q) != AllOnes(w) - IntFromPrefix(w, p)
  {
    MaskValue(w, q);
    MaskValue(w, p);
    MaskParity(w, q);
    MaskParity(w, p);
    Pow2Less(w - p, w);
  }

  lemma MaskParity(w: nat, p: nat)
    requires p <= w
    ensures p < w ==> (Pow2(w) - Pow2(w - p)) % 2 == 0
    ensures p < w ==> Pow2(w) % 2 == 0
    ensures p > 0 ==> Pow2(w) % 2 == 0
  {
  }

  // ----- network, broadcast and supernet by masking -----

  /** `network & netmask` and `network | hostmask` bound a block. */
  lemma NetworkAndBroadcast(w: nat, ip: nat, plen: nat)
    requires ip < Pow2(w) && plen <= w
    ensures And(ip, IntFromPrefix(w, plen)) == Clear(ip, w - plen)
    ensures Xor(IntFromPrefix(w, plen), AllOnes(w)) == Pow2(w - plen) - 1
    ensures Clear(ip, w - plen) >= 0
    ensures Or(Clear(ip, w - plen), Pow2(w - plen) - 1) == Clear(ip, w - plen) + Pow2(w - plen) - 1
  {
    hide And, Or, Xor, Clear, Aligned, IntFromPrefix, Pow2;
    var k := w - plen;
    MaskValue(w, plen);
    AndMask(ip, w, k);
    XorOnes(Pow2(w) - Pow2(k), w);
    ClearNonNegative(ip, k);
    ClearBounds(ip, k);
    OrOnes(Clear(ip, k), k);
  }

  /** The last address of a block, as the library computes it. */
  function Broadcast(w: nat, b: Block): nat {
    Or(b.net, Xor(IntFromPrefix(w, b.plen), AllOnes(w)))
  }

  lemma BroadcastIsLast(w: nat, b: Block)
    requires Valid(w, b)
    ensures Broadcast(w, b) == b.net + Size(w, b) - 1
  {
    NetworkAndBroadcast(w, b.net, b.plen);
    ClearUnique(b.net, b.net, w - b.plen);
  }

  /** The order networks sort in: by network address, then by netmask. */
  predicate NetLess(w: nat, b: Block, c: Block) {
    if b.net != c.net then b.net < c.net else IntFromPrefix(w, b.plen) < IntFromPrefix(w, c.plen)
  }

  predicate KeyLess(b: Block, c: Block) {
    b.net < c.net || (b.net == c.net && b.plen < c.plen)
  }

  /** Comparing netmasks is comparing prefix lengths. */
  lemma NetLessIsLexicographic(w: nat, b: Block, c: Block)
    requires b.plen <= w && c.plen <= w
    ensures NetLess(w, b, c) <==> KeyLess(b, c)
  {
    MaskValue(w, b.plen);
    MaskValue(w, c.plen);
    if b.plen < c.plen { Pow2Less(w - c.plen, w - b.plen); }
    if c.plen < b.plen { Pow2Less(w - b.plen, w - c.plen); }
  }

  /** The supernet `diff` bits up, as computed by masking the network address. */
  function SupernetByMask(w: nat, b: Block, diff: nat): Result<Block, NetError>
    requires b.plen <= w
  {
    if b.plen == 0 then Ok(b)
    else if diff > b.plen then Err(BadDiff)
    else Ok(Block(And(b.net, IntFromPrefix(w, b.plen) * Pow2(diff)), b.plen - diff))
  }

  /** Masking `diff` bits up is taking the one-bit supernet `diff` times. */
  function SupernetTimes(w: nat, b: Block, diff: nat): Block
    requires Valid(w, b)
    decreases diff
  {
    if diff == 0 then b
    else
      SupernetValid(w, b);
      SupernetTimes(w, Supernet(w, b), diff - 1)
  }

  lemma SupernetMasked(w: nat, b: Block, diff: nat)
    requires Valid(w, b) && diff <= b.plen
    ensures Clear(b.net, w - b.plen + diff) >= 0
    ensures SupernetByMask(w, b, diff) == Ok(if b.plen == 0 then b else Block(Clear(b.net, w - b.plen + diff), b.plen - diff))
  {
    hide And, IntFromPrefix, Clear, Aligned, Pow2;
    var k := w - b.plen;
    MaskValue(w, b.plen);
    Pow2Sum(w, diff);
    Pow2Sum(k, diff);
    MulOfDifference(Pow2(w), Pow2(k), Pow2(diff));
    if diff > 0 { Pow2Less(w, w + diff); }
    AndMask(b.net, w + diff, k + diff);
    ClearNonNegative(b.net, k + diff);
  }

  lemma SupernetOnce(w: nat, b: Block)
    requires Valid(w, b)
    ensures SupernetByMask(w, b, 1) == Ok(Supernet(w, b))
  {
    if b.plen > 0 { SupernetMasked(w, b, 1); }
  }

  lemma MulOfDifference(x: int, y: int, z: int)
    ensures (x - y) * z == x * z - y * z
  {
  }

  lemma {:induction false} SupernetIterates(w: nat, b: Block, diff: nat)
    requires Valid(w, b) && diff <= b.plen
    ensures SupernetByMask(w, b, diff) == Ok(SupernetTimes(w, b, diff))
    ensures Valid(w, SupernetTimes(w, b, diff)) && Contains(w, SupernetTimes(w, b, diff), b)
    decreases diff
  {
    hide Aligned, Clear, And, Pow2, IntFromPrefix;
    SupernetMasked(w, b, diff);
    if diff == 0 {
      ClearUnique(b.net, b.net, w - b.plen);
    } else {
      var s := Supernet(w, b);
      SupernetValid(w, b);
      SupernetIterates(w, s, diff - 1);
      SupernetMasked(w, s, diff - 1);
      ClearTwice(b.net, w - b.plen + 1, w - b.plen + diff);
    }
  }

  /** The call with its two ways to say how far to go up; shifting by a negative number is an error too. */
  function SupernetCall(w: nat, b: Block, diff: int, newPrefix: Option<int>): Result<Block, NetError>
    requires b.plen <= w
  {
    if b.plen == 0 then Ok(b)
    else if newPrefix.Some? && newPrefix.value > b.plen then Err(BadNewPrefix)
    else if newPrefix.Some? && diff != 1 then Err(BothGiven)
    else
      var up := if newPrefix.Some? then b.plen - newPrefix.value else diff;
      if up < 0 then Err(BadDiff) else SupernetByMask(w, b, up)
  }

  /** The call succeeds exactly for the whole space, for a prefix length from 0 up to the network's
      own with `diff` left at its default, or for a `diff` in that range; the result is the block of
      that prefix length that contains the network. */
  lemma SupernetExact(w: nat, b: Block, diff: int, newPrefix: Option<int>)
    requires Valid(w, b)
    ensures SupernetCall(w, b, diff, newPrefix).Ok? <==>
      b.plen == 0 || (if newPrefix.Some? then 0 <= newPrefix.value <= b.plen && diff == 1 else 0 <= diff <= b.plen)
    ensures SupernetCall(w, b, diff, newPrefix).Ok? ==>
      var s := SupernetCall(w, b, diff, newPrefix).value;
      && Valid(w, s) && Contains(w, s, b)
      && (b.plen > 0 ==> s.plen == if newPrefix.Some? then newPrefix.value else b.plen - diff)
  {
    hide Aligned, Clear, And, Pow2, IntFromPrefix, SupernetTimes;
    if b.plen > 0 && SupernetCall(w, b, diff, newPrefix).Ok? {
      var up := if newPrefix.Some? then b.plen - newPrefix.value else diff;
      SupernetIterates(w, b, up);
    }
  }

  lemma ClearTwice(x: int, j: nat, k: nat)
    requires j <= k
    ensures Clear(Clear(x, j), k) == Clear(x, k)
  {
    ClearBounds(x, j);
    ClearBounds(x, k);
    AlignedWeaken(Clear(x, k), j, k);
    if Clear(x, j) < Clear(x, k) { AlignedGap(Clear(x, j), Clear(x, k), j); }
    ClearUnique(Clear(x, j), Clear(x, k), k);
  }
}
