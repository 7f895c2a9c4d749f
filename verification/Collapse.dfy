/** The newer library's collapse: a worklist over a dictionary keyed by supernet,
    then one pass over the sorted survivors. */
module Collapse {
  import opened Bits
  import opened Blocks
  import opened Netmasks
  import opened Results
  import opened Sequences
  import opened Summarize

  /** One element of the input: a bare address or a network. */
  datatype Item = Address(ip: nat) | Network(block: Block)

  ghost predicate ValidItem(w: nat, i: Item) {
    match i
    case Address(ip) => ip < Pow2(w)
    case Network(b) => Valid(w, b)
  }

  function AsBlock(w: nat, i: Item): Block {
    match i
    case Address(ip) => Block(ip, w)
    case Network(b) => b
  }

  function AsBlocks(w: nat, items: seq<Item>): seq<Block> {
    seq(|items|, i requires 0 <= i < |items| => AsBlock(w, items[i]))
  }

  /** Some value of the dictionary holds the address. */
  ghost predicate CoveredByMap(w: nat, m: map<Block, Block>, a: int) {
    exists k :: k in m && In(w, m[k], a)
  }

  /** Every value is filed under its own supernet. */
  ghost predicate Filed(w: nat, m: map<Block, Block>) {
    forall k :: k in m ==> Valid(w, m[k]) && Supernet(w, m[k]) == k
  }

  lemma CoveredSplit(w: nat, s: seq<Block>, a: int)
    requires s != []
    ensures Covered(w, s, a) <==> Covered(w, s[..|s| - 1], a) || In(w, s[|s| - 1], a)
  {
    assert s == s[..|s| - 1] + [s[|s| - 1]];
    CoveredAppend(w, s[..|s| - 1], s[|s| - 1], a);
  }

  /** Two different blocks with the same supernet together make it up. */
  lemma HalvesMakeSupernet(w: nat, b: Block, c: Block, a: int)
    requires Valid(w, b) && Valid(w, c) && b != c && Supernet(w, b) == Supernet(w, c)
    ensures Valid(w, Supernet(w, b))
    ensures In(w, Supernet(w, b), a) <==> In(w, b, a) || In(w, c, a)
  {
    SupernetValid(w, b);
    SupernetValid(w, c);
    if b.plen > 0 && c.plen > 0 {
      HalfOfSupernet(w, b);
      HalfOfSupernet(w, c);
    }
  }

  lemma AddressOfMapUpdate(w: nat, m: map<Block, Block>, k: Block, b: Block, a: int)
    requires k !in m
    ensures CoveredByMap(w, m[k := b], a) <==> CoveredByMap(w, m, a) || In(w, b, a)
  {
    var n := m[k := b];
    if CoveredByMap(w, m, a) {
      var j :| j in m && In(w, m[j], a);
      assert j in n && n[j] == m[j];
    }
    assert n[k] == b;
  }

  lemma AddressOfMapRemove(w: nat, m: map<Block, Block>, k: Block, a: int)
    requires k in m
    ensures CoveredByMap(w, m, a) <==> CoveredByMap(w, m - {k}, a) || In(w, m[k], a)
  {
    var n := m - {k};
    if CoveredByMap(w, m, a) {
      var j :| j in m && In(w, m[j], a);
      assert j != k ==> j in n && n[j] == m[j];
    }
    if CoveredByMap(w, n, a) {
      var j :| j in n && In(w, n[j], a);
      assert j in m && m[j] == n[j];
    }
  }

  /** The merge loop. At most one of the two halves of any block survives, and
      what the survivors cover is what the input covers. */
  method MergeSubnets(w: nat, addresses: seq<Block>) returns (subnets: map<Block, Block>)
    requires AllValid(w, addresses)
    ensures Filed(w, subnets)
    ensures forall a: int :: CoveredByMap(w, subnets, a) <==> Covered(w, addresses, a)
  {
    var toMerge := addresses;
    subnets := map[];
    while toMerge != []
      invariant AllValid(w, toMerge) && Filed(w, subnets)
      invariant forall a: int ::
        CoveredByMap(w, subnets, a) || Covered(w, toMerge, a) <==> Covered(w, addresses, a)
      decreases 2 * |toMerge| + |subnets|
    {
      ghost var before, filed := toMerge, subnets;
      var net := toMerge[|toMerge| - 1];
      toMerge := toMerge[..|toMerge| - 1];
      assert net in before && AllValid(w, toMerge);
      SupernetOnce(w, net);
      SupernetValid(w, net);
      var supernet := SupernetByMask(w, net, 1).value;
      if supernet !in subnets {
        subnets := subnets[supernet := net];
        forall a: int ensures CoveredByMap(w, subnets, a) || Covered(w, toMerge, a)
                              <==> CoveredByMap(w, filed, a) || Covered(w, before, a) {
          CoveredSplit(w, before, a);
          AddressOfMapUpdate(w, filed, supernet, net, a);
        }
      } else if subnets[supernet] != net {
        ghost var existing := subnets[supernet];
        subnets := subnets - {supernet};
        toMerge := toMerge + [supernet];
        forall a: int ensures CoveredByMap(w, subnets, a) || Covered(w, toMerge, a)
                              <==> CoveredByMap(w, filed, a) || Covered(w, before, a) {
          CoveredSplit(w, before, a);
          CoveredAppend(w, before[..|before| - 1], supernet, a);
          AddressOfMapRemove(w, filed, supernet, a);
          HalvesMakeSupernet(w, net, existing, a);
        }
      } else {
        forall a: int ensures CoveredByMap(w, subnets, a) || Covered(w, toMerge, a)
                              <==> CoveredByMap(w, filed, a) || Covered(w, before, a) {
          CoveredSplit(w, before, a);
        }
      }
    }
  }

  /** Strictly increasing in the networks' own order. */
  ghost predicate Sorted(s: seq<Block>) {
    forall i, j :: 0 <= i < j < |s| ==> KeyLess(s[i], s[j])
  }

  /** The host's `sorted` on distinct networks: the one increasing list of the set. */
  method SortNetworks(w: nat, nets: set<Block>) returns (r: seq<Block>)
    requires forall b :: b in nets ==> b.plen <= w
    ensures Sorted(r) && forall b :: b in r <==> b in nets
  {
    r := [];
    var rest := nets;
    while rest != {}
      invariant rest <= nets
      invariant Sorted(r)
      invariant forall b :: b in nets <==> b in r || b in rest
      invariant forall b, c :: b in r && c in rest ==> KeyLess(b, c)
      decreases rest
    {
      var least := Least(w, rest);
      r := r + [least];
      rest := rest - {least};
    }
  }

  method Least(w: nat, nets: set<Block>) returns (m: Block)
    requires nets != {} && forall b :: b in nets ==> b.plen <= w
    ensures m in nets && forall b :: b in nets && b != m ==> KeyLess(m, b)
  {
    m :| m in nets;
    var todo := nets - {m};
    while todo != {}
      invariant todo < nets && m in nets && m !in todo
      invariant forall b :: b in nets && b !in todo && b != m ==> KeyLess(m, b)
      decreases todo
    {
      var b :| b in todo;
      NetLessIsLexicographic(w, b, m);
      todo := todo - {b};
      if NetLess(w, b, m) {
        m := b;
      }
    }
  }

  /** Of two sorted blocks, the earlier one contains the later one or ends before it begins. */
  lemma SortedNests(w: nat, b: Block, c: Block)
    requires Valid(w, b) && Valid(w, c) && KeyLess(b, c)
    ensures Broadcast(w, b) >= Broadcast(w, c) ==> Contains(w, b, c)
    ensures Broadcast(w, b) < Broadcast(w, c) ==> b.net + Size(w, b) <= c.net
  {
    BroadcastIsLast(w, b);
    BroadcastIsLast(w, c);
    if Broadcast(w, b) < Broadcast(w, c) && c.net < b.net + Size(w, b) {
      if b.plen <= c.plen {
        Laminar(w, b, c, c.net);
      } else {
        Laminar(w, c, b, c.net);
      }
    }
  }

  ghost predicate DistinctSupernets(w: nat, s: seq<Block>) {
    forall i, j :: 0 <= i < j < |s| ==>
      s[i].plen <= w && s[j].plen <= w && Supernet(w, s[i]) != Supernet(w, s[j])
  }

  /** `out` is what the second pass keeps of the first blocks. */
  ghost predicate KeptSoFar(w: nat, sorted: seq<Block>, i: nat, out: seq<Block>)
    requires i <= |sorted|
  {
    && Tidy(w, out) && (forall b :: b in out ==> b in sorted[..i])
    && (out == [] ==> i == 0)
    && SameCoverage(w, out, sorted[..i])
  }

  lemma LastKept(w: nat, sorted: seq<Block>, i: nat, out: seq<Block>)
    requires AllValid(w, sorted) && Sorted(sorted) && DistinctSupernets(w, sorted)
    requires i < |sorted| && KeptSoFar(w, sorted, i, out) && out != []
    ensures var last := out[|out| - 1];
            Valid(w, last) && Valid(w, sorted[i]) && KeyLess(last, sorted[i]) &&
            Supernet(w, last) != Supernet(w, sorted[i])
  {
    hide Supernet, SameCoverage, Valid, KeyLess;
    var last := out[|out| - 1];
    assert last in sorted[..i];
    var p := IndexOf(sorted[..i], last);
    assert sorted[p] == last && sorted[p] in sorted && sorted[i] in sorted;
  }

  lemma CoveredOneMore(w: nat, sorted: seq<Block>, i: nat, a: int)
    requires i < |sorted|
    ensures Covered(w, sorted[..i + 1], a) <==> Covered(w, sorted[..i], a) || In(w, sorted[i], a)
  {
    assert sorted[..i + 1] == sorted[..i] + [sorted[i]];
    CoveredAppend(w, sorted[..i], sorted[i], a);
  }

  lemma DropNext(w: nat, sorted: seq<Block>, i: nat, out: seq<Block>)
    requires AllValid(w, sorted) && Sorted(sorted) && DistinctSupernets(w, sorted)
    requires i < |sorted| && KeptSoFar(w, sorted, i, out) && out != []
    requires Broadcast(w, out[|out| - 1]) >= Broadcast(w, sorted[i])
    ensures KeptSoFar(w, sorted, i + 1, out)
  {
    var last := out[|out| - 1];
    LastKept(w, sorted, i, out);
    SortedNests(w, last, sorted[i]);
    hide Tidy, Supernet, Broadcast, Valid;
    assert forall b :: b in out ==> b in sorted[..i] && b in sorted[..i + 1];
    forall a: int ensures Covered(w, out, a) <==> Covered(w, sorted[..i + 1], a) {
      CoveredOneMore(w, sorted, i, a);
      assert last in out && (In(w, sorted[i], a) ==> In(w, last, a));
    }
  }

  lemma KeepNext(w: nat, sorted: seq<Block>, i: nat, out: seq<Block>)
    requires AllValid(w, sorted) && Sorted(sorted) && DistinctSupernets(w, sorted)
    requires i < |sorted| && KeptSoFar(w, sorted, i, out)
    requires out == [] || Broadcast(w, out[|out| - 1]) < Broadcast(w, sorted[i])
    ensures KeptSoFar(w, sorted, i + 1, out + [sorted[i]])
  {
    assert sorted[i] in sorted;
    if out != [] {
      LastKept(w, sorted, i, out);
      SortedNests(w, out[|out| - 1], sorted[i]);
    }
    hide Supernet, Broadcast, In, Covered;
    TidyAppend(w, out, sorted[i]);
    hide Tidy, Valid;
    assert forall b :: b in out ==> b in sorted[..i] && b in sorted[..i + 1];
    assert sorted[..i + 1][i] == sorted[i];
    forall a: int ensures Covered(w, out + [sorted[i]], a) <==> Covered(w, sorted[..i + 1], a) {
      CoveredOneMore(w, sorted, i, a);
      CoveredAppend(w, out, sorted[i], a);
    }
  }

  /** The second pass: walk the sorted survivors and drop those inside the last one kept. */
  method DropSubsumed(w: nat, sorted: seq<Block>) returns (out: seq<Block>)
    requires AllValid(w, sorted) && Sorted(sorted)
    requires DistinctSupernets(w, sorted)
    ensures Tidy(w, out) && SameCoverage(w, out, sorted)
  {
    out := [];
    var last: Option<Block> := None;
    for i := 0 to |sorted|
      invariant KeptSoFar(w, sorted, i, out)
      invariant last == if out == [] then None else Some(out[|out| - 1])
    {
      var net := sorted[i];
      assert net in sorted;
      if last.Some? {
        LastKept(w, sorted, i, out);
        if Broadcast(w, last.value) >= Broadcast(w, net) {
          DropNext(w, sorted, i, out);
          continue;
        }
      }
      KeepNext(w, sorted, i, out);
      out := out + [net];
      last := Some(net);
    }
    assert sorted[..|sorted|] == sorted;
  }

  /** The whole internal pass: merge, sort, drop. */
  method CollapseInternal(w: nat, addresses: seq<Block>) returns (out: seq<Block>)
    requires AllValid(w, addresses)
    ensures Tidy(w, out) && SameCoverage(w, out, addresses)
    ensures Canonical(w, out, addresses)
  {
    var subnets := MergeSubnets(w, addresses);
    assert forall b :: b in subnets.Values <==> exists k :: k in subnets && subnets[k] == b;
    var sorted := SortNetworks(w, subnets.Values);
    forall i, j | 0 <= i < j < |sorted|
      ensures sorted[i].plen <= w && sorted[j].plen <= w && Supernet(w, sorted[i]) != Supernet(w, sorted[j])
    {
      assert sorted[i] in sorted && sorted[j] in sorted;
    }
    out := DropSubsumed(w, sorted);
    forall a: int ensures Covered(w, sorted, a) <==> CoveredByMap(w, subnets, a) {
      if CoveredByMap(w, subnets, a) {
        var k :| k in subnets && In(w, subnets[k], a);
        assert subnets[k] in sorted;
      }
    }
    TidyIsCanonical(w, out);
    CanonicalCongruence(w, out, out, addresses);
  }

  /** Address `a` lies in one of the closed ranges. */
  ghost predicate InRanges(ranges: seq<(nat, nat)>, a: int) {
    exists k :: 0 <= k < |ranges| && ranges[k].0 <= a <= ranges[k].1
  }

  lemma NoRanges()
    ensures forall a: int :: !InRanges([], a)
  {
  }

  lemma InRangesAppend(ranges: seq<(nat, nat)>, r: (nat, nat), a: int)
    ensures InRanges(ranges + [r], a) <==> InRanges(ranges, a) || r.0 <= a <= r.1
  {
    var s := ranges + [r];
    if InRanges(ranges, a) {
      var k :| 0 <= k < |ranges| && ranges[k].0 <= a <= ranges[k].1;
      assert s[k] == ranges[k];
    }
    assert s[|ranges|] == r;
  }

  /** The maximal runs of consecutive numbers in a strictly increasing list. */
  method FindAddressRanges(ips: seq<nat>) returns (ranges: seq<(nat, nat)>)
    requires ips != [] && forall i, j :: 0 <= i < j < |ips| ==> ips[i] < ips[j]
    ensures forall k :: 0 <= k < |ranges| ==> ranges[k].0 <= ranges[k].1 <= ips[|ips| - 1]
    ensures forall k :: 0 <= k < |ranges| - 1 ==> ranges[k].1 + 1 < ranges[k + 1].0
    ensures forall a: int :: a in ips <==> InRanges(ranges, a)
  {
    hide InRanges;
    var first: nat, last: nat := ips[0], ips[0];
    ranges := [];
    NoRanges();
    for i := 1 to |ips|
      invariant first <= last == ips[i - 1]
      invariant forall k :: 0 <= k < |ranges| ==> ranges[k].0 <= ranges[k].1 < last
      invariant forall k :: 0 <= k < |ranges| - 1 ==> ranges[k].1 + 1 < ranges[k + 1].0
      invariant ranges != [] ==> ranges[|ranges| - 1].1 + 1 < first
      invariant forall a: int :: a in ips[..i] <==> first <= a <= last || InRanges(ranges, a)
    {
      var ip := ips[i];
      assert ips[..i + 1] == ips[..i] + [ip];
      if ip != last + 1 {
        forall a: int ensures InRanges(ranges + [(first, last)], a) <==> InRanges(ranges, a) || first <= a <= last {
          InRangesAppend(ranges, (first, last), a);
        }
        ranges := ranges + [(first, last)];
        first := ip;
      }
      last := ip;
    }
    forall a: int ensures InRanges(ranges + [(first, last)], a) <==> InRanges(ranges, a) || first <= a <= last {
      InRangesAppend(ranges, (first, last), a);
    }
    ranges := ranges + [(first, last)];
    assert ips[..|ips|] == ips;
  }

  /** The host's `sorted` on a set of addresses. */
  method SortAddresses(ips: set<nat>) returns (r: seq<nat>)
    ensures forall i, j :: 0 <= i < j < |r| ==> r[i] < r[j]
    ensures forall a :: a in r <==> a in ips
  {
    r := [];
    var rest := ips;
    while rest != {}
      invariant rest <= ips
      invariant forall i, j :: 0 <= i < j < |r| ==> r[i] < r[j]
      invariant forall a :: a in ips <==> a in r || a in rest
      invariant forall i, b :: 0 <= i < |r| && b in rest ==> r[i] < b
      decreases rest
    {
      var m :| m in rest;
      var todo := rest - {m};
      while todo != {}
        invariant todo < rest && m in rest && m !in todo
        invariant forall b :: b in rest && b !in todo ==> m <= b
        decreases todo
      {
        var b :| b in todo;
        todo := todo - {b};
        if b < m { m := b; }
      }
      r := r + [m];
      rest := rest - {m};
    }
  }

  /** Separate single addresses (including full-length networks) from proper networks. */
  method SplitItems(w: nat, addresses: seq<Item>) returns (ips: seq<nat>, nets: seq<Block>)
    requires forall i :: i in addresses ==> ValidItem(w, i)
    ensures AllValid(w, nets) && forall ip :: ip in ips ==> ip < Pow2(w)
    ensures forall a: int :: Covered(w, nets, a) || a in ips <==> Covered(w, AsBlocks(w, addresses), a)
  {
    ips, nets := [], [];
    for i := 0 to |addresses|
      invariant AllValid(w, nets) && forall ip :: ip in ips ==> ip < Pow2(w)
      invariant forall a: int :: Covered(w, nets, a) || a in ips <==> Covered(w, AsBlocks(w, addresses[..i]), a)
    {
      var item := addresses[i];
      assert ValidItem(w, item);
      ghost var b := AsBlock(w, item);
      assert AsBlocks(w, addresses[..i + 1]) == AsBlocks(w, addresses[..i]) + [b];
      forall a: int ensures Covered(w, AsBlocks(w, addresses[..i + 1]), a) <==>
                            Covered(w, AsBlocks(w, addresses[..i]), a) || In(w, b, a) {
        CoveredAppend(w, AsBlocks(w, addresses[..i]), b, a);
      }
      forall a: int ensures Covered(w, nets + [b], a) <==> Covered(w, nets, a) || In(w, b, a) {
        CoveredAppend(w, nets, b, a);
      }
      ghost var ips0, nets0 := ips, nets;
      if item.Address? {
        ips := ips + [item.ip];
        assert forall a: int :: In(w, b, a) <==> a == b.net;
      } else if item.block.plen == w {
        ips := ips + [item.block.net];
        assert forall a: int :: In(w, b, a) <==> a == b.net;
      } else {
        nets := nets + [item.block];
      }
      forall a: int ensures Covered(w, nets, a) || a in ips <==> Covered(w, AsBlocks(w, addresses[..i + 1]), a) {
        assert Covered(w, nets0, a) || a in ips0 <==> Covered(w, AsBlocks(w, addresses[..i]), a);
      }
    }
    assert addresses[..|addresses|] == addresses;
  }

  /** Sort the bare addresses, summarise their runs, and collapse those blocks with the
      given networks. The result is the canonical list of the union of the input. */
  method CollapseAddresses(w: nat, addresses: seq<Item>) returns (out: seq<Block>)
    requires forall i :: i in addresses ==> ValidItem(w, i)
    ensures Canonical(w, out, AsBlocks(w, addresses))
    ensures SameCoverage(w, out, AsBlocks(w, addresses))
  {
    var ips, nets := SplitItems(w, addresses);
    var addrs: seq<Block> := [];
    var sorted := SortAddresses(set ip | ip in ips);
    if sorted != [] {
      var ranges := FindAddressRanges(sorted);
      assert sorted[|sorted| - 1] in sorted;
      addrs := SummarizeRanges(w, ranges);
    }
    forall a: int ensures Covered(w, addrs, a) <==> a in ips {
      if a in ips { assert a in sorted; }
    }
    forall a: int ensures Covered(w, addrs + nets, a) <==> Covered(w, addrs, a) || Covered(w, nets, a) {
      CoveredConcat(w, addrs, nets, a);
    }
    out := CollapseInternal(w, addrs + nets);
    CanonicalCongruence(w, out, addrs + nets, AsBlocks(w, addresses));
  }

  lemma CoveredConcat(w: nat, s: seq<Block>, t: seq<Block>, a: int)
    ensures Covered(w, s + t, a) <==> Covered(w, s, a) || Covered(w, t, a)
  {
    if Covered(w, s, a) {
      var b :| b in s && In(w, b, a);
      assert b in s + t;
    }
    if Covered(w, t, a) {
      var b :| b in t && In(w, b, a);
      assert b in s + t;
    }
  }

  method SummarizeRanges(w: nat, ranges: seq<(nat, nat)>) returns (addrs: seq<Block>)
    requires forall k :: 0 <= k < |ranges| ==> ranges[k].0 <= ranges[k].1 < Pow2(w)
    ensures AllValid(w, addrs)
    ensures forall a: int :: Covered(w, addrs, a) <==> InRanges(ranges, a)
  {
    addrs := [];
    for i := 0 to |ranges|
      invariant AllValid(w, addrs)
      invariant forall a: int :: Covered(w, addrs, a) <==> InRanges(ranges[..i], a)
    {
      assert ranges[..i + 1] == ranges[..i] + [ranges[i]];
      forall a: int ensures InRanges(ranges[..i + 1], a) <==>
                            InRanges(ranges[..i], a) || ranges[i].0 <= a <= ranges[i].1 {
        InRangesAppend(ranges[..i], ranges[i], a);
      }
      var r := SummarizeAddressRange(w, ranges[i].0, ranges[i].1);
      TilesCovers(w, r.value, ranges[i].0, ranges[i].1);
      forall a: int ensures Covered(w, addrs + r.value, a) <==> Covered(w, addrs, a) || Covered(w, r.value, a) {
        CoveredConcat(w, addrs, r.value, a);
      }
      addrs := addrs + r.value;
    }
    assert ranges[..|ranges|] == ranges;
  }
}
