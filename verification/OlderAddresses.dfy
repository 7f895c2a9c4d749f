/** The older address library: splitting, the recursive collapse and exclusion. */
module OlderAddresses {
  import opened Bits
  import opened Blocks
  import opened Netmasks
  import opened Results
  import opened Sequences
  import opened Summarize
  import opened Collapse

  /** `other in self` between networks. */
  predicate Within(w: nat, self: Block, other: Block) {
    self.net <= other.net && Broadcast(w, self) >= Broadcast(w, other)
  }

  lemma WithinIsContains(w: nat, self: Block, other: Block)
    requires Valid(w, self) && Valid(w, other)
    ensures Within(w, self, other) <==> Contains(w, self, other)
  {
    BroadcastIsLast(w, self);
    BroadcastIsLast(w, other);
    ContainsIff(w, self, other);
  }

  /** The network of the same address one bit up. */
  function OlderSupernet(w: nat, b: Block): Block {
    if b.plen == 0 then b
    else Block(And(b.net, IntFromPrefix(w, b.plen - 1)), b.plen - 1)
  }

  lemma OlderSupernetIs(w: nat, b: Block)
    requires Valid(w, b)
    ensures OlderSupernet(w, b) == Supernet(w, b)
  {
    if b.plen > 0 { NetworkAndBroadcast(w, b.net, b.plen - 1); }
  }

  /** The prefix length asked for: given itself, or as a difference. */
  function AskedPrefix(self: Block, diff: int, newPrefix: Option<int>): int {
    if newPrefix.Some? then newPrefix.value else self.plen + diff
  }

  /** Split a network into its subnets of the asked prefix length: they tile it. */
  method IterSubnets(w: nat, self: Block, prefixDiff: int, newPrefix: Option<int>) returns (r: Result<seq<Block>, NetError>)
    requires Valid(w, self)
    ensures self.plen == w ==> r == Ok([self])
    ensures r == Err(BadNewPrefix) <==> self.plen < w && newPrefix.Some? && newPrefix.value < self.plen
    ensures r == Err(BothGiven) <==> self.plen < w && newPrefix.Some? && newPrefix.value >= self.plen && prefixDiff != 1
    ensures self.plen < w && (newPrefix.Some? ==> newPrefix.value >= self.plen && prefixDiff == 1) ==>
      if self.plen <= AskedPrefix(self, prefixDiff, newPrefix) <= w then
        && r.Ok? && AllValid(w, r.value)
        && Tiles(w, r.value, self.net, self.net + Size(w, self) - 1)
        && forall b :: b in r.value ==> b.plen == AskedPrefix(self, prefixDiff, newPrefix)
      else r == Err(BadDiff)
  {
    hide Aligned, Pow2, Broadcast, Contains;
    if self.plen == w {
      return Ok([self]);
    }
    var diff := prefixDiff;
    if newPrefix.Some? {
      if newPrefix.value < self.plen {
        return Err(BadNewPrefix);
      }
      if diff != 1 {
        return Err(BothGiven);
      }
      diff := newPrefix.value - self.plen;
    }
    if diff < 0 {
      return Err(BadDiff);
    }
    var newPlen := self.plen + diff;
    if newPlen > w {
      return Err(BadDiff);
    }
    var k := w - newPlen;
    ghost var end := self.net + Size(w, self);
    SubnetGrid(w, self, k);
    var current := Block(self.net, newPlen);
    var out := [current];
    BroadcastIsLast(w, self);
    while true
      invariant out != [] && current == out[|out| - 1]
      invariant current.plen == newPlen && AllValid(w, out) && Aligned(current.net, k)
      invariant forall b :: b in out ==> b.plen == newPlen
      invariant current.net + Pow2(k) <= end
      invariant Tiles(w, out, self.net, current.net + Pow2(k) - 1)
      decreases end - current.net
    {
      BroadcastIsLast(w, current);
      var broadcast := Broadcast(w, current);
      if broadcast == Broadcast(w, self) {
        return Ok(out);
      }
      NextAligned(current.net, end, k);
      current := Block(broadcast + 1, newPlen);
      TilesAppend(w, out, self.net, current);
      out := out + [current];
    }
  }

  lemma NextAligned(x: nat, end: nat, k: nat)
    requires Aligned(x, k) && Aligned(end, k) && x + Pow2(k) < end
    ensures Aligned(x + Pow2(k), k) && x + 2 * Pow2(k) <= end
  {
    AlignedPow2(k, k);
    AlignedSum(x, Pow2(k), k);
    AlignedGap(x + Pow2(k), end, k);
  }

  /** The subnet grid: the end of a network is a multiple of the subnet size. */
  lemma SubnetGrid(w: nat, self: Block, k: nat)
    requires Valid(w, self) && k <= w - self.plen
    ensures Aligned(self.net, k) && Aligned(self.net + Size(w, self), k)
    ensures self.net + Pow2(k) <= self.net + Size(w, self) <= Pow2(w)
  {
    AlignedWeaken(self.net, k, w - self.plen);
    AlignedPow2(k, w - self.plen);
    AlignedSum(self.net, Pow2(w - self.plen), k);
    BlockEnd(w, self);
    AlignedGap(self.net, self.net + Size(w, self), k);
  }

  /** Splitting one bit down gives the two halves. */
  method Subnet(w: nat, self: Block) returns (r: seq<Block>)
    requires Valid(w, self)
    ensures r == if self.plen == w then [self] else [Half(w, self, false), Half(w, self, true)]
  {
    hide Aligned, Broadcast, Covered, Tiles, Pow2;
    var res := IterSubnets(w, self, 1, None);
    r := res.value;
    if self.plen < w { TwoTiles(w, self, r); }
  }

  lemma TwoTiles(w: nat, self: Block, r: seq<Block>)
    requires self.plen < w && Tiles(w, r, self.net, self.net + Size(w, self) - 1)
    requires forall b :: b in r ==> b.plen == self.plen + 1
    ensures r == [Half(w, self, false), Half(w, self, true)]
  {
    hide Covered;
    assert forall i :: 0 <= i < |r| ==> r[i] in r;
    var half := Pow2(w - self.plen - 1);
    assert Size(w, self) == 2 * half && r[0] == Block(self.net, self.plen + 1);
    assert |r| > 1 && r[1].net == self.net + half;
    assert |r| > 2 ==> r[2].net == self.net + 2 * half;
    forall i | 0 <= i < |r| ensures r[i].net + Size(w, r[i]) <= self.net + Size(w, self) {
      TilesBound(w, r, self.net, self.net + Size(w, self) - 1, i);
    }
  }

  // ----- the recursive collapse -----

  /** Non-decreasing in the networks' sort key. */
  ghost predicate LooselySorted(s: seq<Block>) {
    forall i, j :: 0 <= i < j < |s| ==> !KeyLess(s[j], s[i])
  }

  /** The host's `sorted` on a list of networks. */
  method SortNetworkList(w: nat, s: seq<Block>) returns (r: seq<Block>)
    requires forall b :: b in s ==> b.plen <= w
    ensures multiset(r) == multiset(s) && LooselySorted(r)
  {
    r := [];
    for i := 0 to |s|
      invariant multiset(r) == multiset(s[..i]) && LooselySorted(r)
    {
      assert s[..i + 1] == s[..i] + [s[i]];
      assert forall b :: b in r ==> b in multiset(r);
      r := InsertSorted(w, r, s[i]);
    }
    assert s[..|s|] == s;
  }

  method InsertSorted(w: nat, s: seq<Block>, b: Block) returns (r: seq<Block>)
    requires LooselySorted(s) && b.plen <= w && forall c :: c in s ==> c.plen <= w
    ensures multiset(r) == multiset(s) + multiset{b} && LooselySorted(r)
  {
    hide NetLess, LooselySorted;
    var k := |s|;
    while k > 0 && NetLess(w, b, s[k - 1])
      invariant 0 <= k <= |s|
      invariant forall i :: k <= i < |s| ==> KeyLess(b, s[i])
    {
      NetLessIsLexicographic(w, b, s[k - 1]);
      k := k - 1;
    }
    r := s[..k] + [b] + s[k..];
    if k > 0 { NetLessIsLexicographic(w, b, s[k - 1]); }
    InsertKeepsSorted(s, k, b);
    assert s == s[..k] + s[k..];
  }

  lemma InsertKeepsSorted(s: seq<Block>, k: nat, b: Block)
    requires LooselySorted(s) && k <= |s|
    requires k > 0 ==> !KeyLess(b, s[k - 1])
    requires forall i :: k <= i < |s| ==> KeyLess(b, s[i])
    ensures LooselySorted(s[..k] + [b] + s[k..])
  {
    forall i | 0 <= i < k ensures !KeyLess(b, s[i]) {
      assert i < k - 1 ==> !KeyLess(s[k - 1], s[i]);
    }
  }

  /** One left-to-right pass: absorb a network into the previous one, or merge the two
      halves of a block, else keep it. Repeated until nothing changes. */
  method CollapseRecursive(w: nat, addresses: seq<Block>) returns (r: seq<Block>)
    requires AllValid(w, addresses) && LooselySorted(addresses)
    ensures Tidy(w, r) && SameCoverage(w, r, addresses)
    decreases |addresses|
  {
    hide Aligned, Pow2, Clear, Supernet, OlderSupernet, Broadcast;
    var ret: seq<Block>, optimized := [], false;
    for i := 0 to |addresses|
      invariant AllValid(w, ret) && Ordered(w, ret)
      invariant |ret| <= i && (optimized ==> |ret| < i)
      invariant ret != [] ==> forall j :: i <= j < |addresses| ==> !KeyLess(addresses[j], ret[|ret| - 1])
      invariant !optimized ==> Tidy(w, ret)
      invariant ret == [] ==> i == 0
      invariant forall a: int :: Covered(w, ret, a) <==> Covered(w, addresses[..i], a)
    {
      var cur := addresses[i];
      assert cur in addresses;
      assert addresses[..i + 1] == addresses[..i] + [cur];
      forall a: int ensures Covered(w, addresses[..i + 1], a) <==> Covered(w, addresses[..i], a) || In(w, cur, a) {
        CoveredAppend(w, addresses[..i], cur, a);
      }
      forall a: int ensures Covered(w, ret + [cur], a) <==> Covered(w, ret, a) || In(w, cur, a) {
        CoveredAppend(w, ret, cur, a);
      }
      if ret == [] {
        ret := ret + [cur];
        continue;
      }
      var top := ret[|ret| - 1];
      assert top in ret;
      WithinIsContains(w, top, cur);
      if Within(w, top, cur) {
        optimized := true;
        continue;
      }
      TopEndsBefore(w, top, cur);
      OlderSupernetIs(w, top);
      SupernetValid(w, top);
      var halves := Subnet(w, OlderSupernet(w, top));
      HalfOfSupernet(w, top);
      if cur == halves[1] {
        MergeTop(w, ret, cur);
        NotBelowSupernet(w, addresses, i, top);
        ret := ret[..|ret| - 1] + [OlderSupernet(w, top)];
        optimized := true;
      } else {
        OrderedAppend(w, ret, cur);
        if !optimized {
          NotSiblings(w, top, cur);
          TidyAppend(w, ret, cur);
        }
        ret := ret + [cur];
      }
    }
    assert addresses[..|addresses|] == addresses;
    if optimized {
      OrderedIsLooselySorted(w, ret);
      r := CollapseRecursive(w, ret);
    } else {
      r := ret;
    }
  }

  /** A network that sorts no earlier and is not inside begins after the end. */
  lemma TopEndsBefore(w: nat, top: Block, cur: Block)
    requires Valid(w, top) && Valid(w, cur) && !KeyLess(cur, top) && !Contains(w, top, cur)
    ensures top.net + Size(w, top) <= cur.net
    ensures top.plen > 0
  {
    BlockEnd(w, cur);
    if cur.net < top.net + Size(w, top) {
      if top.plen <= cur.plen {
        Laminar(w, top, cur, cur.net);
      } else {
        Laminar(w, cur, top, cur.net);
      }
    }
  }

  /** Replacing the top by its supernet, when `cur` is the right half. */
  lemma MergeTop(w: nat, ret: seq<Block>, cur: Block)
    requires ret != [] && AllValid(w, ret) && Ordered(w, ret) && ret[|ret| - 1].plen > 0
    requires cur == Half(w, Supernet(w, ret[|ret| - 1]), true) && cur != ret[|ret| - 1]
    ensures var merged := ret[..|ret| - 1] + [Supernet(w, ret[|ret| - 1])];
            && AllValid(w, merged) && Ordered(w, merged) && Supernet(w, ret[|ret| - 1]).net == ret[|ret| - 1].net
            && forall a: int :: Covered(w, merged, a) <==> Covered(w, ret, a) || In(w, cur, a)
  {
    var n := |ret| - 1;
    var top, front := ret[n], ret[..n];
    var merged := front + [Supernet(w, top)];
    assert top in ret;
    SupernetValid(w, top);
    HalfOfSupernet(w, top);
    HalvesValid(w, Supernet(w, top), true);
    forall a: int ensures Covered(w, merged, a) <==> Covered(w, ret, a) || In(w, cur, a) {
      assert ret == front + [top];
      CoveredAppend(w, front, top, a);
      CoveredAppend(w, front, Supernet(w, top), a);
      HalvesMakeSupernet(w, top, cur, a);
    }
    forall b | b in merged ensures Valid(w, b) {
      assert b in front ==> b in ret;
    }
  }

  lemma NotBelowSupernet(w: nat, addresses: seq<Block>, i: nat, top: Block)
    requires AllValid(w, addresses) && LooselySorted(addresses) && i < |addresses|
    requires Valid(w, top) && top.plen > 0 && top.net < addresses[i].net
    requires Supernet(w, top).net == top.net
    ensures forall j :: i <= j < |addresses| ==> !KeyLess(addresses[j], Supernet(w, top))
  {
    forall j | i <= j < |addresses| ensures !KeyLess(addresses[j], Supernet(w, top)) {
      assert j > i ==> !KeyLess(addresses[j], addresses[i]);
    }
  }

  lemma OrderedAppend(w: nat, s: seq<Block>, b: Block)
    requires Ordered(w, s) && Valid(w, b) && s != [] && End(w, s) <= b.net
    ensures Ordered(w, s + [b])
  {
    var t := s + [b];
    forall i, j | 0 <= i < j < |t| ensures t[i].net + Size(w, t[i]) <= t[j].net {
      if j == |s| {
        assert i < |s| - 1 ==> s[i].net + Size(w, s[i]) <= s[|s| - 1].net;
      }
    }
  }

  lemma NotSiblings(w: nat, top: Block, cur: Block)
    requires Valid(w, top) && Valid(w, cur) && top.plen > 0
    requires top.net < cur.net && cur != Half(w, Supernet(w, top), true)
    ensures Supernet(w, top) != Supernet(w, cur)
  {
    HalfOfSupernet(w, top);
    if cur.plen > 0 {
      HalfOfSupernet(w, cur);
    }
  }

  lemma OrderedIsLooselySorted(w: nat, s: seq<Block>)
    requires Ordered(w, s)
    ensures LooselySorted(s)
  {
  }

  /** The older `collapse_address_list`: same input, same canonical list as the newer one. */
  method CollapseAddressList(w: nat, addresses: seq<Item>) returns (out: seq<Block>)
    requires forall i :: i in addresses ==> ValidItem(w, i)
    ensures Canonical(w, out, AsBlocks(w, addresses))
  {
    hide Aligned, Pow2, Canonical, LooselySorted, In, Ordered, Supernet;
    var ipList, netList := SplitItems(w, addresses);
    var ips := SortAddresses(set ip | ip in ipList);
    var nets := SortNetworks(w, set b | b in netList);
    var addrs: seq<Block>, i := [], 0;
    forall ip | ip in ips ensures ip < Pow2(w) {}
    while i < |ips|
      invariant 0 <= i <= |ips| && AllValid(w, addrs)
      invariant forall a: int :: Covered(w, addrs, a) <==> a in ips[..i]
    {
      var first, last := FindAddressRange(ips[i..]);
      assert ips[i] in ips && ips[i + (last - first)] in ips;
      ghost var before := i;
      i := i + (last - first) + 1;
      var blocks := SummarizeOlder(w, first, last);
      TilesCovers(w, blocks.value, first, last);
      forall a: int ensures Covered(w, addrs + blocks.value, a) <==> a in ips[..i] {
        CoveredConcat(w, addrs, blocks.value, a);
        assert ips[..i] == ips[..before] + ips[before..i];
        RunMembers(ips[before..], last - first + 1, a);
        assert ips[before..i] == ips[before..][..last - first + 1];
      }
      addrs := addrs + blocks.value;
    }
    assert ips[..|ips|] == ips;
    var sorted := SortNetworkList(w, addrs + nets);
    forall b ensures b in sorted <==> b in addrs + nets {
      assert b in sorted <==> b in multiset(sorted);
    }
    out := CollapseRecursive(w, sorted);
    forall a: int ensures Covered(w, sorted, a) <==> Covered(w, AsBlocks(w, addresses), a) {
      CoveredConcat(w, addrs, nets, a);
      SameMembersCover(w, nets, netList, a);
      SameMembersCover(w, sorted, addrs + nets, a);
      assert a in ipList <==> a in ips;
    }
    TidyIsCanonical(w, out);
    CanonicalCongruence(w, out, out, AsBlocks(w, addresses));
  }

  lemma SameMembersCover(w: nat, s: seq<Block>, t: seq<Block>, a: int)
    requires forall b :: b in s <==> b in t
    ensures Covered(w, s, a) <==> Covered(w, t, a)
  {
  }

  /** The first run of consecutive numbers of a list. */
  method FindAddressRange(ips: seq<nat>) returns (first: nat, last: nat)
    requires ips != []
    ensures first == ips[0] && first <= last < first + |ips|
    ensures forall k :: 0 <= k <= last - first ==> ips[k] == first + k
    ensures last - first + 1 < |ips| ==> ips[last - first + 1] != last + 1
  {
    first, last := ips[0], ips[0];
    for i := 1 to |ips|
      invariant last == first + i - 1
      invariant forall k :: 0 <= k <= last - first ==> ips[k] == first + k
    {
      if ips[i] == last + 1 {
        last := ips[i];
      } else {
        break;
      }
    }
  }

  lemma RunMembers(s: seq<nat>, n: nat, a: int)
    requires 0 < n <= |s| && forall k :: 0 <= k < n ==> s[k] == s[0] + k
    ensures a in s[..n] <==> s[0] <= a <= s[0] + n - 1
  {
    if s[0] <= a <= s[0] + n - 1 { assert s[..n][a - s[0]] == a; }
  }

  /** Both libraries return the same list for the same single-version input. */
  lemma LibrariesAgree(w: nat, items: seq<Item>, newer: seq<Block>, older: seq<Block>)
    requires Canonical(w, newer, AsBlocks(w, items)) && Canonical(w, older, AsBlocks(w, items))
    ensures newer == older
  {
    CanonicalUnique(w, newer, AsBlocks(w, items), older, AsBlocks(w, items));
  }

  // ----- exclusion -----

  /** `out` together with `other` partitions `self`. */
  ghost predicate Excludes(w: nat, out: seq<Block>, self: Block, other: Block) {
    forall a: int :: Covered(w, out, a) <==> In(w, self, a) && !In(w, other, a)
  }

  /** Halve `self` around `other`, keeping the half without it each time. The result is the
      canonical list of the difference, one block for every bit between the two prefixes. */
  method AddressExclude(w: nat, self: Block, other: Block) returns (r: Result<seq<Block>, NetError>)
    requires Valid(w, self) && Valid(w, other)
    ensures r.Err? ==> r == Err(NotContained)
    ensures r.Ok? <==> Contains(w, self, other)
    ensures r.Ok? ==> Excludes(w, r.value, self, other) && Tidy(w, r.value)
    ensures r.Ok? ==> |r.value| == other.plen - self.plen
  {
    WithinIsContains(w, self, other);
    if !Within(w, self, other) {
      return Err(NotContained);
    }
    if other == self {
      return Ok([]);
    }
    var ret: seq<Block> := [];
    ghost var p := self;
    ContainsIff(w, self, other);
    var s := Subnet(w, self);
    var s1, s2 := s[0], s[1];
    while s1 != other && s2 != other
      invariant Valid(w, p) && Contains(w, p, other) && self.plen <= p.plen < other.plen
      invariant s1 == Half(w, p, false) && s2 == Half(w, p, true)
      invariant Peeled(w, ret, self, p)
      decreases other.plen - p.plen
    {
      HalvesValid(w, p, false);
      HalvesValid(w, p, true);
      WithinIsContains(w, s1, other);
      WithinIsContains(w, s2, other);
      InOneHalf(w, p, other);
      if Within(w, s1, other) {
        ContainsIff(w, s1, other);
        Peel(w, ret, self, p, false);
        ret := ret + [s2];
        p := s1;
        s := Subnet(w, s1);
      } else if Within(w, s2, other) {
        ContainsIff(w, s2, other);
        Peel(w, ret, self, p, true);
        ret := ret + [s1];
        p := s2;
        s := Subnet(w, s2);
      } else {
        assert false;
      }
      s1, s2 := s[0], s[1];
    }
    if s1 == other {
      Peel(w, ret, self, p, false);
      ret := ret + [s2];
    } else if s2 == other {
      Peel(w, ret, self, p, true);
      ret := ret + [s1];
    } else {
      assert false;
    }
    forall b | b in ret ensures b.plen <= w { assert Valid(w, b); }
    var sorted := SortNetworkList(w, ret);
    SortedPeel(w, ret, sorted, self, other);
    r := Ok(sorted);
  }

  lemma InOneHalf(w: nat, p: Block, c: Block)
    requires Valid(w, p) && Valid(w, c) && Contains(w, p, c) && p.plen < c.plen
    ensures Contains(w, Half(w, p, false), c) || Contains(w, Half(w, p, true), c)
  {
    HalvesValid(w, p, false);
    HalvesValid(w, p, true);
    ContainsIff(w, p, c);
    if c.net < Half(w, p, true).net {
      Laminar(w, Half(w, p, false), c, c.net);
    } else {
      Laminar(w, Half(w, p, true), c, c.net);
    }
  }

  /** What has been cut off `self` so far when the rest is `p`: one block per bit. */
  ghost predicate Peeled(w: nat, ret: seq<Block>, self: Block, p: Block) {
    && self.plen + |ret| == p.plen <= w
    && (forall i :: 0 <= i < |ret| ==> Valid(w, ret[i]) && ret[i].plen == self.plen + i + 1)
    && (forall i, j, a: int :: 0 <= i < |ret| && 0 <= j < |ret| && i != j ==> !(In(w, ret[i], a) && In(w, ret[j], a)))
    && (forall a: int :: In(w, self, a) && !In(w, p, a) <==> Covered(w, ret, a))
    && (forall a: int :: In(w, p, a) ==> In(w, self, a))
  }

  lemma Peel(w: nat, ret: seq<Block>, self: Block, p: Block, right: bool)
    requires Valid(w, p) && p.plen < w && Peeled(w, ret, self, p)
    ensures Peeled(w, ret + [Half(w, p, !right)], self, Half(w, p, right))
  {
    HalvesValid(w, p, false);
    HalvesValid(w, p, true);
    var b, q := Half(w, p, !right), Half(w, p, right);
    var t := ret + [b];
    forall a: int
      ensures In(w, self, a) && !In(w, q, a) <==> Covered(w, t, a)
      ensures In(w, q, a) ==> In(w, self, a)
    {
      CoveredAppend(w, ret, b, a);
    }
    forall i, a: int | 0 <= i < |ret| && In(w, ret[i], a) ensures !In(w, b, a) {
      assert ret[i] in ret && Covered(w, ret, a);
    }
  }

  lemma SortedPeel(w: nat, ret: seq<Block>, sorted: seq<Block>, self: Block, other: Block)
    requires Peeled(w, ret, self, other) && multiset(sorted) == multiset(ret) && LooselySorted(sorted)
    ensures Tidy(w, sorted) && Excludes(w, sorted, self, other) && |sorted| == |ret|
  {
    assert |multiset(sorted)| == |multiset(ret)|;
    forall b ensures b in sorted <==> b in ret {
      assert b in sorted <==> b in multiset(sorted);
    }
    forall a: int ensures Covered(w, sorted, a) <==> Covered(w, ret, a) { SameMembersCover(w, sorted, ret, a); }
    forall b | b in sorted ensures Valid(w, b) && b.plen > 0 { var k := IndexOf(ret, b); }
    assert forall i :: 0 <= i < |sorted| ==> sorted[i] in sorted;
    forall i, j | 0 <= i < j < |sorted|
      ensures sorted[i].net + Size(w, sorted[i]) <= sorted[j].net
      ensures sorted[i].plen != sorted[j].plen
    {
      var m, n := IndexOf(ret, sorted[i]), IndexOf(ret, sorted[j]);
      DistinctInMultiset(ret, sorted, i, j);
      var b, c := sorted[i], sorted[j];
      assert In(w, b, b.net) && In(w, ret[n], c.net);
      assert !In(w, ret[m], c.net);
    }
    forall i | 0 <= i < |sorted| - 1 ensures Supernet(w, sorted[i]) != Supernet(w, sorted[i + 1]) {
      assert sorted[i] in ret && sorted[i + 1] in ret;
    }
  }

  /** A permutation of a list without repeats has no repeats. */
  lemma DistinctInMultiset(s: seq<Block>, t: seq<Block>, i: nat, j: nat)
    requires multiset(s) == multiset(t) && i < j < |t|
    requires forall m, n :: 0 <= m < n < |s| ==> s[m] != s[n]
    ensures t[i] != t[j]
  {
    CountAtMostOne(s, t[i]);
    assert t == t[..i] + [t[i]] + t[i + 1..j] + [t[j]] + t[j + 1..];
    assert multiset(t)[t[i]] >= 1 + (if t[i] == t[j] then 1 else 0);
  }

  lemma {:induction false} CountAtMostOne(s: seq<Block>, b: Block)
    requires forall m, n :: 0 <= m < n < |s| ==> s[m] != s[n]
    ensures multiset(s)[b] <= 1
  {
    if s != [] {
      CountAtMostOne(s[1..], b);
      assert s == [s[0]] + s[1..];
      assert b == s[0] ==> b !in s[1..];
      assert b !in s[1..] ==> multiset(s[1..])[b] == 0;
    }
  }
}
