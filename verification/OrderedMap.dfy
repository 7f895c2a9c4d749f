/** The ordered dictionary: a key map, and a circular doubly linked list of cells around
    a sentinel that keeps the order of first insertion. */
module OrderedMap {
  import opened Results
  import opened Sequences

  datatype DictError = KeyError | EmptyDict

  /** One list cell `[key, prev, next]`; the key never changes, the sentinel's is `None`. */
  class Cell<K> {
    const key: Option<K>
    var prev: Cell<K>
    var next: Cell<K>

    /** A cell linked to itself on both sides. */
    constructor (key: Option<K>)
      ensures this.key == key && prev == this && next == this
    {
      this.key := key;
      prev := this;
      next := this;
    }
  }

  // ----- the abstract ordered map -----

  /** Keys in order, without repeats, and their values. */
  datatype Ordered<K, V> = Ordered(keys: seq<K>, values: map<K, V>)

  function Put<K(==), V>(m: Ordered<K, V>, key: K, value: V): Ordered<K, V> {
    Ordered(if key in m.values then m.keys else m.keys + [key], m.values[key := value])
  }

  function Without<K(==)>(keys: seq<K>, key: K): seq<K> {
    if keys == [] then []
    else if keys[0] == key then keys[1..]
    else [keys[0]] + Without(keys[1..], key)
  }

  function Delete<K(==), V>(m: Ordered<K, V>, key: K): Ordered<K, V> {
    Ordered(Without(m.keys, key), m.values - {key})
  }

  lemma {:induction false} WithoutAt<K>(keys: seq<K>, i: nat)
    requires i < |keys| && forall j :: 0 <= j < i ==> keys[j] != keys[i]
    ensures Without(keys, keys[i]) == keys[..i] + keys[i + 1..]
    decreases i
  {
    if i > 0 {
      WithoutAt(keys[1..], i - 1);
      assert keys[..i] == [keys[0]] + keys[1..][..i - 1];
      assert keys[i + 1..] == keys[1..][i..];
    }
  }

  /** Cutting out position i. */
  lemma CutAt<T>(s: seq<T>, i: nat)
    requires i < |s|
    ensures var t := s[..i] + s[i + 1..];
      && |t| == |s| - 1
      && (forall j :: 0 <= j < |t| ==> t[j] == s[if j < i then j else j + 1])
      && (forall x :: x in s && x != s[i] ==> x in t)
  {
    var t := s[..i] + s[i + 1..];
    forall x | x in s && x != s[i] ensures x in t {
      var j :| 0 <= j < |s| && s[j] == x;
      assert t[if j < i then j else j - 1] == x;
    }
  }

  /** The cells after the sentinel carry the listed keys, each once, and the two maps have exactly these. */
  ghost predicate KeyedBy<K(!new), V>(ring: seq<Cell<K>>, keys: seq<K>, cellOf: map<K, Cell<K>>, dict: map<K, V>) {
    && |ring| == |keys| + 1
    && (forall i :: 0 <= i < |keys| ==> ring[i + 1].key == Some(keys[i]))
    && (forall i :: 0 <= i < |keys| ==> keys[i] in cellOf && cellOf[keys[i]] == ring[i + 1])
    && (forall i, j :: 0 <= i < j < |keys| ==> keys[i] != keys[j])
    && (forall k :: k in cellOf ==> k in keys)
    && (forall k :: k in cellOf <==> k in dict)
  }

  lemma KeyedAppend<K(!new), V>(ring: seq<Cell<K>>, keys: seq<K>, cellOf: map<K, Cell<K>>, dict: map<K, V>,
                                cell: Cell<K>, key: K, value: V)
    requires KeyedBy(ring, keys, cellOf, dict) && key !in dict && cell.key == Some(key)
    ensures KeyedBy(ring + [cell], keys + [key], cellOf[key := cell], dict[key := value])
  {
  }

  lemma KeyedUpdate<K(!new), V>(ring: seq<Cell<K>>, keys: seq<K>, cellOf: map<K, Cell<K>>, dict: map<K, V>, key: K, value: V)
    requires KeyedBy(ring, keys, cellOf, dict) && key in dict
    ensures KeyedBy(ring, keys, cellOf, dict[key := value])
  {
  }

  lemma KeyedCut<K(!new), V>(ring: seq<Cell<K>>, keys: seq<K>, cellOf: map<K, Cell<K>>, dict: map<K, V>, i: nat)
    requires KeyedBy(ring, keys, cellOf, dict) && i < |keys|
    ensures KeyedBy(ring[..i + 1] + ring[i + 2..], keys[..i] + keys[i + 1..], cellOf - {keys[i]}, dict - {keys[i]})
    ensures Without(keys, keys[i]) == keys[..i] + keys[i + 1..]
  {
    WithoutAt(keys, i);
    KeyedCutCells(ring, keys, cellOf, dict, i);
    CutAt(keys, i);
    hide Without;
    var keys1, cells1 := keys[..i] + keys[i + 1..], cellOf - {keys[i]};
    forall k | k in cells1 ensures k in keys1 { assert k in keys && k != keys[i]; }
    forall k ensures k in cells1 <==> k in dict - {keys[i]} {}
  }

  lemma KeyedCutCells<K(!new), V>(ring: seq<Cell<K>>, keys: seq<K>, cellOf: map<K, Cell<K>>, dict: map<K, V>, i: nat)
    requires KeyedBy(ring, keys, cellOf, dict) && i < |keys|
    ensures var ring1, keys1, cells1 := ring[..i + 1] + ring[i + 2..], keys[..i] + keys[i + 1..], cellOf - {keys[i]};
      && |ring1| == |keys1| + 1
      && (forall j :: 0 <= j < |keys1| ==> ring1[j + 1].key == Some(keys1[j]))
      && (forall j :: 0 <= j < |keys1| ==> keys1[j] in cells1 && cells1[keys1[j]] == ring1[j + 1])
      && (forall j, k :: 0 <= j < k < |keys1| ==> keys1[j] != keys1[k])
  {
    var ring1, keys1 := ring[..i + 1] + ring[i + 2..], keys[..i] + keys[i + 1..];
    forall j | 0 <= j < |keys1|
      ensures keys1[j] == keys[if j < i then j else j + 1] && ring1[j + 1] == ring[(if j < i then j else j + 1) + 1]
    {
    }
  }

  class OrderedDict<K(==, !new), V> {
    var end: Cell<K>
    /** key to its cell */
    var cellOf: map<K, Cell<K>>
    /** the underlying plain dictionary */
    var dict: map<K, V>
    /** The ring of cells, the sentinel first, and the keys of the others. */
    ghost var ring: seq<Cell<K>>
    ghost var keys: seq<K>
    /** Every cell linked since the last clear. */
    ghost var Repr: set<Cell<K>>

    ghost predicate Owned()
      reads this`ring, this`Repr
    {
      forall i :: 0 <= i < |ring| ==> ring[i] in Repr
    }

    /** The cells are linked both ways into one circle through the sentinel. */
    ghost predicate Linked()
      reads this`ring, this`Repr, this`end, Repr
    {
      && Owned() && |ring| > 0 && ring[0] == end
      && (forall i, j :: 0 <= i < j < |ring| ==> ring[i] != ring[j])
      && (forall i {:trigger ring[i].next} :: 0 <= i < |ring| - 1 ==> ring[i].next == ring[i + 1])
      && (forall i {:trigger ring[i].prev} :: 0 < i < |ring| ==> ring[i].prev == ring[i - 1])
      && ring[|ring| - 1].next == end && end.prev == ring[|ring| - 1]
    }

    ghost predicate Valid()
      reads this, Repr
    {
      Linked() && KeyedBy(ring, keys, cellOf, dict)
    }

    /** The abstract value: the keys in order, and the dictionary. */
    ghost function Model(): Ordered<K, V>
      reads this
    {
      Ordered(keys, dict)
    }

    constructor ()
      ensures Valid() && fresh(Repr) && Model() == Ordered([], map[])
    {
      var c := new Cell<K>(None);
      end := c;
      cellOf := map[];
      dict := map[];
      ring := [c];
      Repr := {c};
      keys := [];
    }

    method Clear()
      requires Valid()
      modifies this
      ensures Valid() && fresh(Repr) && Model() == Ordered([], map[])
    {
      var c := new Cell<K>(None);
      end := c;
      cellOf := map[];
      dict := map[];
      ring := [c];
      Repr := {c};
      keys := [];
    }

    /** The dictionary's keys are exactly those listed, each once. */
    lemma KeysOnce()
      requires Valid()
      ensures forall k :: k in dict <==> k in keys
      ensures forall i, j :: 0 <= i < j < |keys| ==> keys[i] != keys[j]
    {
      forall k | k in keys ensures k in dict { var i :| 0 <= i < |keys| && keys[i] == k; }
    }

    method Set(key: K, value: V)
      requires Valid()
      modifies this, Repr
      ensures Valid() && fresh(Repr - old(Repr))
      ensures Model() == Put(old(Model()), key, value)
    {
      hide KeyedBy;
      if key !in dict {
        ghost var ring0 := ring;
        var cell := LinkLast(key);
        KeyedAppend(ring0, keys, cellOf, dict, cell, key, value);
        cellOf := cellOf[key := cell];
        keys := keys + [key];
      } else {
        KeyedUpdate(ring, keys, cellOf, dict, key, value);
      }
      dict := dict[key := value];
    }

    /** Link a new cell between the last one and the sentinel. */
    method LinkLast(key: K) returns (cell: Cell<K>)
      requires Linked()
      modifies this`ring, this`Repr, Repr
      ensures Linked() && ring == old(ring) + [cell] && fresh(cell) && cell.key == Some(key)
      ensures Repr == old(Repr) + {cell}
    {
      var curr := end.prev;
      assert curr == ring[|ring| - 1];
      cell := new Cell(Some(key));
      cell.prev := curr;
      cell.next := end;
      curr.next := cell;
      end.prev := cell;
      ring := ring + [cell];
      Repr := Repr + {cell};
    }

    method Remove(key: K) returns (r: Result<V, DictError>)
      requires Valid()
      modifies this, Repr
      ensures Valid() && Repr == old(Repr)
      ensures r == if key in old(dict) then Ok(old(dict)[key]) else Err(KeyError)
      ensures Model() == if key in old(dict) then Delete(old(Model()), key) else old(Model())
    {
      hide Linked, KeyedBy;
      if key !in dict {
        return Err(KeyError);
      }
      r := Ok(dict[key]);
      ghost var i := PlaceOf(key);
      KeyedCut(ring, keys, cellOf, dict, i);
      dict := dict - {key};
      var cell := cellOf[key];
      cellOf := cellOf - {key};
      Unlink(cell, i + 1);
      keys := keys[..i] + keys[i + 1..];
    }

    lemma PlaceOf(key: K) returns (i: nat)
      requires Valid() && key in dict
      ensures i < |keys| && |ring| == |keys| + 1 && keys[i] == key && key in cellOf && cellOf[key] == ring[i + 1]
    {
      assert key in cellOf;
      i :| 0 <= i < |keys| && keys[i] == key;
    }

    /** Link the neighbours of a cell to each other. */
    method Unlink(cell: Cell<K>, ghost i: nat)
      requires Linked() && 0 < i < |ring| && ring[i] == cell
      modifies this`ring, this`Repr, Repr
      ensures Linked() && ring == old(ring[..i] + ring[i + 1..])
      ensures Repr == old(Repr)
    {
      assert ring[i].prev == ring[i - 1] && ring[i].next == if i + 1 < |ring| then ring[i + 1] else ring[0];
      cell.prev.next := cell.next;
      cell.next.prev := cell.prev;
      ring := ring[..i] + ring[i + 1..];
    }

    /** Forward iteration, from the sentinel's successor until the sentinel comes round. */
    method Iterate() returns (out: seq<K>)
      requires Valid()
      ensures out == Model().keys
    {
      out := [];
      var curr := end.next;
      ghost var i := 1;
      assert |ring| > 1 ==> ring[0].next == ring[1];
      while curr != end
        invariant 1 <= i <= |ring|
        invariant curr == if i == |ring| then end else ring[i]
        invariant out == keys[..i - 1]
        decreases |ring| - i
      {
        assert curr == ring[i] && ring[i - 1 + 1].key == Some(keys[i - 1]);
        assert i + 1 < |ring| ==> ring[i].next == ring[i + 1];
        out := out + [curr.key.value];
        curr := curr.next;
        i := i + 1;
      }
    }

    /** Backward iteration. */
    method IterateReversed() returns (out: seq<K>)
      requires Valid()
      ensures out == Reversed(Model().keys)
    {
      out := [];
      var curr := end.prev;
      ghost var i := |ring| - 1;
      assert keys[i..] == [];
      while curr != end
        invariant 0 <= i < |ring| && curr == ring[i]
        invariant out == Reversed(keys[i..])
        decreases i
      {
        assert i > 0 && ring[i - 1 + 1].key == Some(keys[i - 1]) && ring[i].prev == ring[i - 1];
        ReversedFrom(keys, i - 1);
        out := out + [curr.key.value];
        curr := curr.prev;
        i := i - 1;
      }
      assert keys[0..] == keys;
    }

    /** Remove and return the last item, or the first. */
    method PopItem(last: bool) returns (r: Result<(K, V), DictError>)
      requires Valid()
      modifies this, Repr
      ensures Valid() && Repr == old(Repr)
      ensures old(keys) == [] ==> r == Err(EmptyDict) && Model() == old(Model())
      ensures old(keys) != [] ==>
        var key := if last then old(keys)[|old(keys)| - 1] else old(keys)[0];
        && key in old(dict) && r == Ok((key, old(dict)[key]))
        && Model() == Ordered(if last then old(keys)[..|old(keys)| - 1] else old(keys)[1..], old(dict) - {key})
    {
      NoKeys();
      hide Linked;
      if dict == map[] {
        return Err(EmptyDict);
      }
      var cell := if last then end.prev else end.next;
      ghost var at := if last then |keys| - 1 else 0;
      EndCells();
      assert cell == ring[at + 1] && ring[at + 1].key == Some(keys[at]);
      var key := cell.key.value;
      hide KeyedBy;
      WithoutAt(keys, at);
      assert keys[..0] + keys[1..] == keys[1..] && keys[..|keys| - 1] + keys[|keys|..] == keys[..|keys| - 1];
      var value := Remove(key);
      r := Ok((key, value.value));
    }

    lemma EndCells()
      requires Valid()
      ensures keys != [] ==> end.next == ring[1] && end.prev == ring[|ring| - 1] && keys[0] in dict && keys[|keys| - 1] in dict
    {
      assert |ring| > 1 ==> ring[0].next == ring[1];
      assert keys != [] ==> keys[0] in cellOf && keys[|keys| - 1] in cellOf;
    }

    lemma NoKeys()
      requires Valid()
      ensures dict == map[] <==> keys == []
    {
      KeysOnce();
      assert keys != [] ==> keys[0] in keys;
    }
  }

  // ----- runs -----

  datatype Op<K, V> = DoSet(key: K, value: V) | DoRemove(key: K) | DoPop(last: bool) | DoClear

  /** One operation on the abstract map; failing ones leave it unchanged. */
  function Step<K(==), V>(m: Ordered<K, V>, op: Op<K, V>): Ordered<K, V> {
    match op
    case DoSet(k, v) => Put(m, k, v)
    case DoRemove(k) => if k in m.values then Delete(m, k) else m
    case DoPop(last) =>
      if m.keys == [] then m
      else if last then Ordered(m.keys[..|m.keys| - 1], m.values - {m.keys[|m.keys| - 1]})
      else Ordered(m.keys[1..], m.values - {m.keys[0]})
    case DoClear => Ordered([], map[])
  }

  /** What an operation gives back. */
  datatype Reply<K, V> = NoReply | Removed(removed: Result<V, DictError>) | Popped(popped: Result<(K, V), DictError>)

  function ReplyTo<K(==), V>(m: Ordered<K, V>, op: Op<K, V>): Reply<K, V> {
    match op
    case DoRemove(k) => Removed(if k in m.values then Ok(m.values[k]) else Err(KeyError))
    case DoPop(last) =>
      if m.keys == [] then Popped(Err(EmptyDict))
      else
        var key := if last then m.keys[|m.keys| - 1] else m.keys[0];
        Popped(if key in m.values then Ok((key, m.values[key])) else Err(KeyError))
    case _ => NoReply
  }

  function Steps<K(==), V>(m: Ordered<K, V>, ops: seq<Op<K, V>>): Ordered<K, V>
    decreases |ops|
  {
    if ops == [] then m else Steps(Step(m, ops[0]), ops[1..])
  }

  function Replies<K(==), V>(m: Ordered<K, V>, ops: seq<Op<K, V>>): seq<Reply<K, V>>
    decreases |ops|
  {
    if ops == [] then [] else [ReplyTo(m, ops[0])] + Replies(Step(m, ops[0]), ops[1..])
  }

  lemma RepliesStep<K, V>(m: Ordered<K, V>, op: Op<K, V>, rest: seq<Op<K, V>>, before: seq<Reply<K, V>>)
    ensures before + Replies(m, [op] + rest) == before + [ReplyTo(m, op)] + Replies(Step(m, op), rest)
  {
    assert ([op] + rest)[1..] == rest;
  }

  lemma NoReplies<K, V>(m: Ordered<K, V>)
    ensures Replies(m, []) == []
  {
  }

  /** Any run of operations on a new dictionary does and answers what the abstract ordered map does
      and answers, and iteration afterwards gives its keys in order, forwards and backwards. */
  method Run<K(==, !new), V>(ops: seq<Op<K, V>>)
    returns (d: OrderedDict<K, V>, replies: seq<Reply<K, V>>, forward: seq<K>, backward: seq<K>)
    ensures d.Valid() && d.Model() == Steps(Ordered([], map[]), ops)
    ensures replies == Replies(Ordered([], map[]), ops)
    ensures forward == Steps(Ordered([], map[]), ops).keys && backward == Reversed(forward)
  {
    hide KeyedBy, OrderedDict.Linked, OrderedDict.Valid, Replies;
    d := new OrderedDict();
    replies := [];
    assert ops[0..] == ops && [] + Replies(d.Model(), ops) == Replies(d.Model(), ops);
    for i := 0 to |ops|
      invariant d.Valid() && fresh(d) && fresh(d.Repr)
      invariant Steps(d.Model(), ops[i..]) == Steps(Ordered([], map[]), ops)
      invariant replies + Replies(d.Model(), ops[i..]) == Replies(Ordered([], map[]), ops)
    {
      ghost var was := d.Model();
      assert ops[i..][1..] == ops[i + 1..] && ops[i..] == [ops[i]] + ops[i + 1..];
      RepliesStep(was, ops[i], ops[i + 1..], replies);
      d.KeysOnce();
      var reply := NoReply;
      match ops[i] {
        case DoSet(k, v) => d.Set(k, v);
        case DoRemove(k) => var r := d.Remove(k); reply := Removed(r);
        case DoPop(last) => var r := d.PopItem(last); reply := Popped(r);
        case DoClear => d.Clear();
      }
      replies := replies + [reply];
    }
    assert ops[|ops|..] == [];
    NoReplies(d.Model());
    assert replies + [] == replies;
    forward := d.Iterate();
    backward := d.IterateReversed();
  }

  /** The order is that of the insertions that were not deleted since: overwriting keeps a key's
      place, and deleting and setting again moves it to the end. */
  lemma PlaceOfKey<K, V>(m: Ordered<K, V>, key: K, value: V)
    requires forall k :: k in m.values <==> k in m.keys
    requires forall i, j :: 0 <= i < j < |m.keys| ==> m.keys[i] != m.keys[j]
    ensures key in m.values ==> Put(m, key, value).keys == m.keys
    ensures key in m.values ==> Put(Delete(m, key), key, value).keys == Without(m.keys, key) + [key]
    ensures key !in m.values ==> Delete(Put(m, key, value), key) == m
  {
    if key !in m.values {
      var p := Put(m, key, value);
      WithoutAt(p.keys, |m.keys|);
      assert p.keys[..|m.keys|] == m.keys && p.keys[|m.keys| + 1..] == [];
      assert m.values[key := value] - {key} == m.values;
    }
  }
}
