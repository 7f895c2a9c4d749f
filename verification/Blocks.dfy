/** CIDR prefix blocks over addresses of a fixed width `w` (32 or 128), the
    address sets they denote, and the canonical block list of an address set. */
module Blocks {
  import opened Bits
  import opened Sequences

  /** A network: its lowest address and its prefix length. */
  datatype Block = Block(net: nat, plen: nat)

  /** No host bits set, prefix length in range, address in range. */
  ghost predicate Valid(w: nat, b: Block) {
    b.plen <= w && b.net < Pow2(w) && Aligned(b.net, w - b.plen)
  }

  ghost predicate AllValid(w: nat, s: seq<Block>) {
    forall b :: b in s ==> Valid(w, b)
  }

  function Size(w: nat, b: Block): nat
    requires b.plen <= w
  {
    Pow2(w - b.plen)
  }

  /** Address `a` lies in block `b`. */
  ghost predicate In(w: nat, b: Block, a: int) {
    b.plen <= w && b.net <= a < b.net + Pow2(w - b.plen)
  }

  /** Address `a` lies in some block of the list. */
  ghost predicate Covered(w: nat, s: seq<Block>, a: int) {
    exists b :: b in s && In(w, b, a)
  }

  ghost predicate SameCoverage(w: nat, s: seq<Block>, t: seq<Block>) {
    forall a: int :: Covered(w, s, a) <==> Covered(w, t, a)
  }

  /** `b` contains `c`. */
  ghost predicate Contains(w: nat, b: Block, c: Block) {
    forall a: int :: In(w, c, a) ==> In(w, b, a)
  }

  /** Every address of `b` is covered by the list. */
  ghost predicate Inside(w: nat, b: Block, s: seq<Block>) {
    forall a: int :: In(w, b, a) ==> Covered(w, s, a)
  }

  /** `b` is a prefix block inside the union of `s` that no larger such block contains. */
  ghost predicate Maximal(w: nat, b: Block, s: seq<Block>) {
    && Valid(w, b) && Inside(w, b, s)
    && forall c: Block :: Valid(w, c) && Inside(w, c, s) && Contains(w, c, b) ==> c == b
  }

  /** Sorted by address and pairwise disjoint. */
  ghost predicate Ordered(w: nat, s: seq<Block>) {
    && (forall b :: b in s ==> b.plen <= w)
    && forall i, j :: 0 <= i < j < |s| ==> s[i].net + Size(w, s[i]) <= s[j].net
  }

  /** `out` lists exactly the maximal blocks of the union of `s`, in order. */
  ghost predicate Canonical(w: nat, out: seq<Block>, s: seq<Block>) {
    && Ordered(w, out)
    && forall b: Block :: b in out <==> Maximal(w, b, s)
  }

  /** The block one bit shorter; the whole space is its own supernet. */
  function Supernet(w: nat, b: Block): Block
    requires b.plen <= w
  {
    if b.plen == 0 then b
    else
      ClearNonNegative(b.net, w - b.plen + 1);
      Block(Clear(b.net, w - b.plen + 1), b.plen - 1)
  }

  /** The two halves of a block. */
  function Half(w: nat, b: Block, right: bool): Block
    requires b.plen < w
  {
    Block(if right then b.net + Pow2(w - b.plen - 1) else b.net, b.plen + 1)
  }

  // ----- basic facts -----

  lemma {:induction false} ClearNonNegative(x: nat, k: nat)
    ensures Clear(x, k) >= 0
    decreases k
  {
    if k > 0 { ClearNonNegative(x / 2, k - 1); }
  }

  /** A valid block ends inside the address space. */
  lemma BlockEnd(w: nat, b: Block)
    requires Valid(w, b)
    ensures b.net + Size(w, b) <= Pow2(w)
  {
    AlignedPow2(w - b.plen, w);
    AlignedGap(b.net, Pow2(w), w - b.plen);
  }

  lemma SupernetValid(w: nat, b: Block)
    requires Valid(w, b)
    ensures Valid(w, Supernet(w, b))
    ensures Contains(w, Supernet(w, b), b)
  {
    if b.plen > 0 {
      ClearBounds(b.net, w - b.plen + 1);
      HalfOfSupernet(w, b);
    }
  }

  /** A block is the left or the right half of its supernet. */
  lemma HalfOfSupernet(w: nat, b: Block)
    requires Valid(w, b) && b.plen > 0
    ensures b == Half(w, Supernet(w, b), false) || b == Half(w, Supernet(w, b), true)
  {
    var k := w - b.plen;
    var s := Supernet(w, b);
    if Aligned(b.net, k + 1) {
      ClearUnique(b.net, b.net, k + 1);
    } else {
      AlignedStep(b.net, k);
      ClearUnique(b.net, b.net - Pow2(k), k + 1);
    }
  }

  lemma HalvesValid(w: nat, b: Block, right: bool)
    requires Valid(w, b) && b.plen < w
    ensures Valid(w, Half(w, b, right))
    ensures Supernet(w, Half(w, b, right)) == b
  {
    var k := w - b.plen - 1;
    BlockEnd(w, b);
    AlignedWeaken(b.net, k, k + 1);
    AlignedPow2(k, k);
    AlignedSum(b.net, Pow2(k), k);
    ClearUnique(Half(w, b, right).net, b.net, k + 1);
  }

  /** Prefix blocks are laminar: if the shorter-prefix block meets the other, it contains it. */
  lemma Laminar(w: nat, b: Block, c: Block, a: int)
    requires Valid(w, b) && Valid(w, c) && b.plen <= c.plen
    requires In(w, b, a) && In(w, c, a)
    ensures Contains(w, b, c)
    ensures b.net <= c.net && c.net + Size(w, c) <= b.net + Size(w, b)
  {
    var kb, kc := w - b.plen, w - c.plen;
    AlignedWeaken(b.net, kc, kb);
    if c.net < b.net {
      AlignedGap(c.net, b.net, kc);
    }
    AlignedPow2(kc, kb);
    AlignedSum(b.net, Pow2(kb), kc);
    AlignedGap(c.net, b.net + Pow2(kb), kc);
  }

  /** Containment, read off the two prefixes. */
  lemma ContainsIff(w: nat, b: Block, c: Block)
    requires Valid(w, b) && Valid(w, c)
    ensures Contains(w, b, c) <==> b.net <= c.net && c.net + Size(w, c) <= b.net + Size(w, b)
    ensures Contains(w, b, c) ==> b.plen <= c.plen
    ensures Contains(w, b, c) && b.plen == c.plen ==> b == c
  {
    if Contains(w, b, c) {
      assert In(w, c, c.net) && In(w, c, c.net + Size(w, c) - 1);
      assert In(w, b, c.net) && In(w, b, c.net + Size(w, c) - 1);
    }
    if b.net <= c.net && c.net + Size(w, c) <= b.net + Size(w, b) && c.plen < b.plen {
      Pow2Less(w - b.plen, w - c.plen);
    }
  }

  /** A block properly containing `b` contains the supernet of `b`. */
  lemma ContainsSupernet(w: nat, c: Block, b: Block)
    requires Valid(w, b) && Valid(w, c) && Contains(w, c, b) && c != b
    ensures b.plen > 0 && Contains(w, c, Supernet(w, b))
  {
    ContainsIff(w, c, b);
    SupernetValid(w, b);
    assert In(w, b, b.net);
    Laminar(w, c, Supernet(w, b), b.net);
  }

  // ----- tidy lists are canonical -----

  /** Ordered and disjoint, and no two neighbours are the two halves of one block. */
  ghost predicate Tidy(w: nat, s: seq<Block>) {
    && AllValid(w, s) && Ordered(w, s)
    && forall i :: 0 <= i < |s| - 1 ==> Supernet(w, s[i]) != Supernet(w, s[i + 1])
  }

  /** In a tidy list no two distinct members share a supernet, neighbours or not. */
  lemma TidyNoSiblings(w: nat, s: seq<Block>, l: Block, r: Block)
    requires Tidy(w, s) && l in s && r in s && l != r && l.plen == r.plen
    ensures l.plen > 0
    ensures Supernet(w, l) != Supernet(w, r)
  {
    var i, j := IndexOf(s, l), IndexOf(s, r);
    if i < j { TidyNoSiblingsAt(w, s, i, j); } else { TidyNoSiblingsAt(w, s, j, i); }
  }

  lemma TidyNoSiblingsAt(w: nat, s: seq<Block>, i: nat, j: nat)
    requires Tidy(w, s) && i < j < |s| && s[i].plen == s[j].plen
    ensures s[i].plen > 0
    ensures Supernet(w, s[i]) != Supernet(w, s[j])
  {
    var l, r := s[i], s[j];
    BlockEnd(w, r);
    assert l.net + Size(w, l) <= r.net;
    if i + 1 < j {
      // a block strictly between l and r keeps them from being adjacent
      var m := s[i + 1];
      assert l.net + Size(w, l) < m.net + Size(w, m) <= r.net;
      HalfOfSupernet(w, l);
      HalfOfSupernet(w, r);
    }
  }

  /** Every block inside the union of a tidy list lies in one of its members. */
  lemma {:induction false} TidyMember(w: nat, s: seq<Block>, b: Block) returns (c: Block)
    requires Tidy(w, s) && Valid(w, b) && Inside(w, b, s)
    ensures c in s && Contains(w, c, b)
    decreases w - b.plen
  {
    if b.plen == w {
      assert In(w, b, b.net);
      c :| c in s && In(w, c, b.net);
      Laminar(w, c, b, b.net);
    } else {
      var l, r := Half(w, b, false), Half(w, b, true);
      HalvesValid(w, b, false);
      HalvesValid(w, b, true);
      assert Inside(w, l, s) by { forall a: int | In(w, l, a) ensures Covered(w, s, a) { assert In(w, b, a); } }
      assert Inside(w, r, s) by { forall a: int | In(w, r, a) ensures Covered(w, s, a) { assert In(w, b, a); } }
      c := TidyMember(w, s, l);
      if c == l {
        c := TidyMember(w, s, r);
        if c == r {
          TidyNoSiblings(w, s, l, r);
          assert false;
        }
        ContainsSupernet(w, c, r);
      } else {
        ContainsSupernet(w, c, l);
      }
    }
  }

  /** A tidy list is exactly the list of maximal blocks of its own union. */
  lemma TidyIsCanonical(w: nat, s: seq<Block>)
    requires Tidy(w, s)
    ensures Canonical(w, s, s)
  {
    forall b: Block
      ensures b in s <==> Maximal(w, b, s)
    {
      if b in s {
        TidyMemberIsMaximal(w, s, b);
      }
      if Maximal(w, b, s) {
        var c := TidyMember(w, s, b);
        MemberInside(w, s, c);
      }
    }
  }

  lemma MemberInside(w: nat, s: seq<Block>, b: Block)
    requires b in s
    ensures Inside(w, b, s)
  {
  }

  lemma TidyMemberIsMaximal(w: nat, s: seq<Block>, b: Block)
    requires Tidy(w, s) && b in s
    ensures Maximal(w, b, s)
  {
    MemberInside(w, s, b);
    forall c: Block | Valid(w, c) && Inside(w, c, s) && Contains(w, c, b)
      ensures c == b
    {
      var d := TidyMember(w, s, c);
      assert In(w, b, b.net) && In(w, c, b.net) && In(w, d, b.net);
      OrderedDisjoint(w, s, b, d, b.net);
      ContainsIff(w, c, b);
      ContainsIff(w, b, c);
    }
  }

  lemma OrderedDisjoint(w: nat, s: seq<Block>, b: Block, c: Block, a: int)
    requires Ordered(w, s) && b in s && c in s && In(w, b, a) && In(w, c, a)
    ensures b == c
  {
    var i, j := IndexOf(s, b), IndexOf(s, c);
  }

  // ----- canonical lists: unique, complete and shortest -----

  lemma MaximalCongruence(w: nat, b: Block, s: seq<Block>, t: seq<Block>)
    requires SameCoverage(w, s, t)
    ensures Maximal(w, b, s) <==> Maximal(w, b, t)
  {
    forall c: Block ensures Inside(w, c, s) <==> Inside(w, c, t) {}
  }

  lemma CanonicalCongruence(w: nat, out: seq<Block>, s: seq<Block>, t: seq<Block>)
    requires Canonical(w, out, s) && SameCoverage(w, s, t)
    ensures Canonical(w, out, t)
  {
    forall b: Block ensures Maximal(w, b, s) <==> Maximal(w, b, t) { MaximalCongruence(w, b, s, t); }
  }

  lemma {:induction false} OrderedUnique(w: nat, s: seq<Block>, t: seq<Block>)
    requires Ordered(w, s) && Ordered(w, t)
    requires forall b :: b in s <==> b in t
    ensures s == t
  {
    assert t != [] ==> t[0] in t;
    if s != [] {
      assert s[0] in s;
      assert s[0] in t && t != [] && t[0] in s;
      assert s[0] == t[0];
      OrderedTail(w, s);
      OrderedTail(w, t);
      assert forall b :: b in s[1..] <==> b in t[1..];
      OrderedUnique(w, s[1..], t[1..]);
      assert s == [s[0]] + s[1..] && t == [t[0]] + t[1..];
    }
  }

  lemma OrderedTail(w: nat, s: seq<Block>)
    requires Ordered(w, s) && s != []
    ensures Ordered(w, s[1..])
    ensures forall b :: b in s[1..] <==> b in s && b != s[0]
  {
    forall b | b in s && b != s[0] ensures b in s[1..] {
      var i := IndexOf(s, b);
      assert s[1..][i - 1] == b;
    }
  }

  /** Lists with equal unions have one and the same canonical list. */
  lemma CanonicalUnique(w: nat, out1: seq<Block>, s: seq<Block>, out2: seq<Block>, t: seq<Block>)
    requires Canonical(w, out1, s) && Canonical(w, out2, t) && SameCoverage(w, s, t)
    ensures out1 == out2
  {
    CanonicalCongruence(w, out1, s, t);
    OrderedUnique(w, out1, out2);
  }

  /** Growing a block as long as it stays inside reaches a maximal one. */
  lemma {:induction false} Grow(w: nat, b: Block, s: seq<Block>) returns (m: Block)
    requires Valid(w, b) && Inside(w, b, s)
    ensures Maximal(w, m, s) && Contains(w, m, b)
    decreases b.plen
  {
    if b.plen > 0 && Inside(w, Supernet(w, b), s) {
      SupernetValid(w, b);
      m := Grow(w, Supernet(w, b), s);
    } else {
      m := b;
      forall c: Block | Valid(w, c) && Inside(w, c, s) && Contains(w, c, b) ensures c == b {
        if c != b {
          ContainsSupernet(w, c, b);
        }
      }
    }
  }

  /** The canonical list covers exactly what the original list covers. */
  lemma CanonicalCovers(w: nat, out: seq<Block>, s: seq<Block>)
    requires Canonical(w, out, s) && AllValid(w, s)
    ensures SameCoverage(w, out, s)
  {
    forall a: int ensures Covered(w, out, a) <==> Covered(w, s, a) {
      if Covered(w, out, a) {
        var b :| b in out && In(w, b, a);
        assert Maximal(w, b, s);
      }
      if Covered(w, s, a) {
        var b :| b in s && In(w, b, a);
        MemberInside(w, s, b);
        var m := Grow(w, b, s);
        assert m in out;
      }
    }
  }

  /** No list of prefix blocks with the same union is shorter than the canonical list. */
  lemma CanonicalShortest(w: nat, out: seq<Block>, s: seq<Block>, other: seq<Block>)
    requires Canonical(w, out, s) && AllValid(w, other) && SameCoverage(w, other, s)
    ensures |out| <= |other|
  {
    forall m | m in out ensures HasPart(w, m, other) {
      assert Maximal(w, m, s);
      assert In(w, m, m.net);
      assert Covered(w, other, m.net);
      var b :| b in other && In(w, b, m.net);
      MemberInside(w, other, b);
      forall a: int | In(w, b, a) ensures Covered(w, s, a) {}
      if b.plen <= m.plen {
        Laminar(w, b, m, m.net);
        assert b == m;
      } else {
        Laminar(w, m, b, m.net);
      }
    }
    Pigeonhole(w, out, other);
  }

  /** Some block of the list lies in `m`. */
  ghost predicate HasPart(w: nat, m: Block, other: seq<Block>) {
    exists b :: b in other && Contains(w, m, b)
  }

  /** Disjoint blocks that each contain a member of `other` are at most |other| many. */
  lemma {:induction false} Pigeonhole(w: nat, out: seq<Block>, other: seq<Block>)
    requires Ordered(w, out) && AllValid(w, other)
    requires forall m :: m in out ==> HasPart(w, m, other)
    ensures |out| <= |other|
    decreases |out|
  {
    if out != [] {
      var n := |out| - 1;
      assert out[n] in out && HasPart(w, out[n], other);
      var part :| part in other && Contains(w, out[n], part);
      var j := IndexOf(other, part);
      var rest := other[..j] + other[j + 1..];
      assert other == other[..j] + [part] + other[j + 1..];
      forall m | m in out[..n] ensures HasPart(w, m, rest) {
        assert m in out;
        var b :| b in other && Contains(w, m, b);
        NotInBoth(w, out, IndexOf(out[..n], m), n, part);
        assert b in rest;
      }
      assert forall b :: b in out[..n] ==> b in out;
      Pigeonhole(w, out[..n], rest);
    }
  }

  lemma NotInBoth(w: nat, out: seq<Block>, i: nat, n: nat, c: Block)
    requires Ordered(w, out) && i < n < |out| && Valid(w, c) && Contains(w, out[n], c)
    ensures !Contains(w, out[i], c)
  {
    assert In(w, c, c.net) && In(w, out[n], c.net);
    assert !In(w, out[i], c.net);
  }
}
