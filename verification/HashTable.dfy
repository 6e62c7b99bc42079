/** Counted byte strings (src/mqtt_string.c). */
module Strings {
  type byte = x: int | 0 <= x < 256

  /** The largest `int`. */
  const INT_MAX := 0x7fff_ffff

  /** `mqtt_string_cmp`: 0 for equal strings, -1 for all others. */
  method StringCmp(foo: seq<byte>, bar: seq<byte>) returns (r: int)
    ensures r == if foo == bar then 0 else -1
  {
    if |foo| != |bar| {
      return -1;
    }
    var i := 0;
    while i < |bar|
      invariant 0 <= i <= |bar| && foo[..i] == bar[..i]
    {
      if foo[i] != bar[i] {
        return -1;
      }
      i := i + 1;
    }
    assert foo == foo[..i] && bar == bar[..i];
    return 0;
  }
}

/** The chained table behind topics and clients (src/mqtt_hash.c). */
module HashTable {
  import opened Strings
  import opened Sequences
  import opened Wrappers

  const HASH_LEN := 26

  function SumBytes(key: seq<byte>): (sum: nat)
    ensures sum <= 255 * |key|
  {
    if key == [] then 0 else SumBytes(key[..|key| - 1]) + key[|key| - 1]
  }

  function Bucket(key: seq<byte>): (b: nat)
    ensures b < HASH_LEN
  {
    SumBytes(key) % HASH_LEN
  }

  /** The bucket is the byte sum modulo 26. */
  lemma BucketNext(key: seq<byte>, b: byte)
    ensures Bucket([]) == 0 && Bucket(key + [b]) == (Bucket(key) + b) % 26
  {
    assert (key + [b])[..|key|] == key;
  }

  /** Keys of up to this length are summed without leaving `int`; some key of the next length is not. */
  const MAX_KEY := 8421504

  lemma {:induction false} SumOfFull(n: nat)
    ensures SumBytes(seq(n, i => 255)) == 255 * n
  {
    if n != 0 {
      SumOfFull(n - 1);
      assert seq<byte>(n, i => 255)[..n - 1] == seq(n - 1, i => 255);
    }
  }

  lemma SumOverflowIff(n: nat)
    ensures (forall key: seq<byte> :: |key| == n ==> SumBytes(key) <= INT_MAX) <==> n <= MAX_KEY
  {
    SumOfFull(n);
    var full: seq<byte> := seq(n, i => 255);
    assert |full| == n;
  }

  /** `_mqtt_hash_calinx`. */
  method CalcIndex(key: seq<byte>) returns (index: int)
    requires |key| <= MAX_KEY
    ensures index == Bucket(key)
  {
    index := 0;
    var i := 0;
    while i < |key|
      invariant 0 <= i <= |key| && index == SumBytes(key[..i])
      invariant 0 <= index <= INT_MAX
    {
      assert key[..i + 1][..i] == key[..i];
      index := index + key[i];
      i := i + 1;
    }
    assert key[..i] == key;
    index := index % 26;
  }

  class Node<V> {
    const key: seq<byte>
    var data: V
    var next: Node?<V>

    constructor (key: seq<byte>, data: V)
      ensures this.key == key && this.data == data && next == null
    {
      this.key, this.data, this.next := key, data, null;
    }
  }

  /** The chain that starts at `first` runs through exactly the nodes ns. */
  ghost predicate Chain<V>(ns: seq<Node<V>>, first: Node?<V>)
    reads ns`next
  {
    && first == At(ns, 0, null)
    && forall i {:trigger ns[i].next} :: 0 <= i < |ns| ==> ns[i].next == At(ns, i + 1, null)
  }

  /** The chain of bucket b binds each key of the map that belongs there, once. */
  ghost predicate Binds<V>(ns: seq<Node<V>>, b: nat, m: map<seq<byte>, V>)
    reads ns`data
  {
    && (forall i {:trigger ns[i]} :: 0 <= i < |ns| ==>
          Bucket(ns[i].key) == b && ns[i].key in m && m[ns[i].key] == ns[i].data)
    && (forall i, j :: 0 <= i < j < |ns| ==> ns[i].key != ns[j].key)
    && (forall k :: k in m && Bucket(k) == b ==> Holds(ns, k))
  }

  ghost predicate Holds<V>(ns: seq<Node<V>>, k: seq<byte>) {
    exists i :: 0 <= i < |ns| && ns[i].key == k
  }

  lemma BindsElsewhere<V>(ns: seq<Node<V>>, b: nat, m: map<seq<byte>, V>, m': map<seq<byte>, V>, key: seq<byte>)
    requires Binds(ns, b, m) && Bucket(key) != b && m - {key} == m' - {key}
    ensures Binds(ns, b, m')
  {
    forall k | k in m' && Bucket(k) == b
      ensures Holds(ns, k)
    {
      assert k in m' - {key};
    }
    forall k | k in m && Bucket(k) == b
      ensures k in m' && m'[k] == m[k]
    {
      assert k in m - {key};
      assert (m - {key})[k] == m[k] && (m' - {key})[k] == m'[k];
    }
  }

  /** A node is in the chain of its own key's bucket only. */
  lemma BindsHome<V>(ns: seq<Node<V>>, b: nat, m: map<seq<byte>, V>, n: Node<V>)
    requires Binds(ns, b, m) && Bucket(n.key) != b
    ensures n !in ns
  {
  }

  lemma BindsAppend<V>(ns: seq<Node<V>>, b: nat, m: map<seq<byte>, V>, n: Node<V>)
    requires Binds(ns, b, m) && Bucket(n.key) == b && !Holds(ns, n.key)
    ensures Binds(ns + [n], b, m[n.key := n.data])
  {
    var all := ns + [n];
    assert n.key !in m;
    assert all[|ns|] == n;
    forall k | k in m[n.key := n.data] && Bucket(k) == b
      ensures Holds(all, k)
    {
      if k != n.key {
        var i :| 0 <= i < |ns| && ns[i].key == k;
        assert all[i].key == k;
      }
    }
  }

  lemma BindsRemove<V>(ns: seq<Node<V>>, b: nat, m: map<seq<byte>, V>, i: nat)
    requires Binds(ns, b, m) && i < |ns|
    ensures Binds(Remove(ns, i), b, m - {ns[i].key})
  {
    var rest, key := Remove(ns, i), ns[i].key;
    forall k | k in m - {key} && Bucket(k) == b
      ensures Holds(rest, k)
    {
      assert Holds(ns, k);
      var j :| 0 <= j < |ns| && ns[j].key == k;
      assert rest[if j < i then j else j - 1].key == k;
    }
  }

  class HashTable<V> {
    const iterms: array<Node?<V>>
    ghost var chains: seq<seq<Node<V>>>
    ghost var repr: set<Node<V>>
    ghost var contents: map<seq<byte>, V>

    ghost predicate Valid()
      reads this, iterms, repr
    {
      && iterms.Length == HASH_LEN == |chains|
      && (forall b {:trigger chains[b]} :: 0 <= b < HASH_LEN ==>
            && (forall n :: n in chains[b] ==> n in repr)
            && Chain(chains[b], iterms[b])
            && Binds(chains[b], b, contents))
    }

    constructor ()
      ensures Valid() && fresh(iterms) && repr == {} && contents == map[]
    {
      iterms := new Node?<V>[HASH_LEN](_ => null);
      chains := seq(HASH_LEN, _ => []);
      repr, contents := {}, map[];
    }

    /** `mqtt_hash_get`. */
    method Get(key: seq<byte>) returns (data: Option<V>)
      requires Valid() && |key| <= MAX_KEY
      ensures data == if key in contents then Some(contents[key]) else None
    {
      var index := CalcIndex(key);
      ghost var ns, i := chains[index], 0;
      var node := iterms[index];
      while node != null
        invariant 0 <= i <= |ns| && node == At(ns, i, null)
        invariant forall j :: 0 <= j < i ==> ns[j].key != key
        decreases |ns| - i
      {
        var cmp := StringCmp(node.key, key);
        if cmp != -1 {
          return Some(node.data);
        }
        node := node.next;
        i := i + 1;
      }
      return None;
    }

    /** `mqtt_hash_set`. */
    method Set(key: seq<byte>, data: V)
      requires Valid() && |key| <= MAX_KEY
      modifies this`chains, this`repr, this`contents, iterms, repr
      ensures Valid() && contents == old(contents)[key := data]
      ensures old(repr) <= repr && fresh(repr - old(repr))
    {
      hide Binds, Holds, Bucket;
      var index := CalcIndex(key);
      if iterms[index] == null {
        var node := new Node(key, data);
        LinkFirst(index, node);
        return;
      }
      var tmp, cmp, i := FindLast(index, key);
      if cmp == 0 {
        Overwrite(index, tmp, data, i);
      } else {
        var node := new Node(key, data);
        LinkLast(index, tmp, node);
      }
    }

    /** The walk of `mqtt_hash_set`, to the node with the key or the last one. */
    method FindLast(index: nat, key: seq<byte>) returns (tmp: Node<V>, cmp: int, ghost i: nat)
      requires Valid() && index < HASH_LEN && chains[index] != []
      ensures i < |chains[index]| && tmp == chains[index][i] && cmp == (if tmp.key == key then 0 else -1)
      ensures forall j :: 0 <= j < i ==> chains[index][j].key != key
      ensures tmp.key != key ==> i == |chains[index]| - 1 && !Holds(chains[index], key)
    {
      hide Binds, Bucket;
      ghost var ns := chains[index];
      tmp, i := iterms[index], 0;
      cmp := StringCmp(tmp.key, key);
      while tmp.next != null && cmp != 0
        invariant 0 <= i < |ns| && tmp == ns[i]
        invariant cmp == if tmp.key == key then 0 else -1
        invariant forall j :: 0 <= j < i ==> ns[j].key != key
        decreases |ns| - i
      {
        tmp := tmp.next;
        i := i + 1;
        cmp := StringCmp(tmp.key, key);
      }
    }

    method LinkFirst(index: nat, node: Node<V>)
      requires Valid() && index == Bucket(node.key) && iterms[index] == null && node.next == null && node !in repr
      modifies this`chains, this`repr, this`contents, iterms
      ensures Valid() && contents == old(contents)[node.key := node.data] && repr == old(repr) + {node}
    {
      hide Binds, Bucket, Holds;
      assert chains[index] == [] && chains[index] + [node] == [node];
      ghost var m := contents;
      NoneHold(node.key);
      BindsAppend(chains[index], index, m, node);
      BindAllOthers(index, m[node.key := node.data], node.key);
      iterms[index] := node;
      chains, repr := chains[index := [node]], repr + {node};
      contents := m[node.key := node.data];
    }

    lemma NoneHold(key: seq<byte>)
      ensures !Holds<V>([], key)
    {
    }

    /** A change of the map at one key leaves the other buckets' chains as they are. */
    lemma BindAllOthers(index: nat, m: map<seq<byte>, V>, key: seq<byte>)
      requires Valid() && index == Bucket(key) && m - {key} == contents - {key}
      ensures forall b {:trigger chains[b]} :: 0 <= b < HASH_LEN && b != index ==> Binds(chains[b], b, m)
    {
      forall b {:trigger chains[b]} | 0 <= b < HASH_LEN && b != index
        ensures Binds(chains[b], b, m)
      {
        BindsElsewhere(chains[b], b, contents, m, key);
      }
    }

    lemma InNoOther(index: nat, i: nat)
      requires Valid() && index < HASH_LEN && i < |chains[index]|
      ensures Bucket(chains[index][i].key) == index
      ensures forall b {:trigger chains[b]} :: 0 <= b < HASH_LEN && b != index ==> chains[index][i] !in chains[b]
      ensures forall j {:trigger chains[index][j]} :: 0 <= j < |chains[index]| && j != i ==>
                chains[index][j] != chains[index][i]
    {
      forall b {:trigger chains[b]} | 0 <= b < HASH_LEN && b != index
        ensures chains[index][i] !in chains[b]
      {
        BindsHome(chains[b], b, contents, chains[index][i]);
      }
    }

    method LinkLast(index: nat, tmp: Node<V>, node: Node<V>)
      requires Valid() && index == Bucket(node.key) && chains[index] != [] && tmp == chains[index][|chains[index]| - 1]
      requires !Holds(chains[index], node.key) && node.next == null && node !in repr
      modifies this`chains, this`repr, this`contents, tmp`next
      ensures Valid() && contents == old(contents)[node.key := node.data] && repr == old(repr) + {node}
    {
      hide Binds, Bucket, Holds;
      ghost var m, ns := contents, chains[index];
      BindsAppend(ns, index, m, node);
      BindAllOthers(index, m[node.key := node.data], node.key);
      InNoOther(index, |ns| - 1);
      tmp.next := node;
      chains, repr := chains[index := ns + [node]], repr + {node};
      contents := m[node.key := node.data];
    }

    method Overwrite(index: nat, tmp: Node<V>, data: V, ghost i: nat)
      requires Valid() && index == Bucket(tmp.key) && i < |chains[index]| && tmp == chains[index][i]
      modifies this`contents, tmp`data
      ensures Valid() && contents == old(contents)[tmp.key := data]
    {
      hide Bucket, Holds;
      BindAllOthers(index, contents[tmp.key := data], tmp.key);
      InNoOther(index, i);
      tmp.data := data;
      contents := contents[tmp.key := data];
      assert Binds(chains[index], index, contents);
      hide Binds;
    }

    lemma Bound(index: nat, i: nat)
      requires Valid() && index < HASH_LEN && i < |chains[index]|
      ensures chains[index][i].key in contents && contents[chains[index][i].key] == chains[index][i].data
    {
    }

    lemma Unbound(index: nat, key: seq<byte>)
      requires Valid() && index == Bucket(key) && forall j :: 0 <= j < |chains[index]| ==> chains[index][j].key != key
      ensures key !in contents
    {
      assert Binds(chains[index], index, contents) && !Holds(chains[index], key);
    }

    /** `mqtt_hash_del`. */
    method Del(key: seq<byte>) returns (data: Option<V>)
      requires Valid() && |key| <= MAX_KEY
      modifies this`chains, this`contents, iterms, repr
      ensures Valid() && contents == old(contents) - {key}
      ensures data == if key in old(contents) then Some(old(contents)[key]) else None
    {
      hide Binds, Holds, Bucket;
      var index := CalcIndex(key);
      var tmp := iterms[index];
      if tmp == null {
        Unbound(index, key);
        return None;
      }
      var cmp := StringCmp(tmp.key, key);
      if cmp == 0 {
        Bound(index, 0);
        UnlinkFirst(index);
        return Some(tmp.data);
      }
      ghost var i;
      tmp, i := FindBefore(index, key);
      if tmp.next == null {
        Unbound(index, key);
        return None;
      }
      var found := tmp.next;
      Bound(index, i + 1);
      UnlinkNext(index, tmp, i);
      return Some(found.data);
    }

    /** The walk of `mqtt_hash_del`, to the node before the one with the key, or the last one. */
    method FindBefore(index: nat, key: seq<byte>) returns (tmp: Node<V>, ghost i: nat)
      requires Valid() && index < HASH_LEN && chains[index] != [] && chains[index][0].key != key
      ensures i < |chains[index]| && tmp == chains[index][i] && tmp.next == At(chains[index], i + 1, null)
      ensures forall j :: 0 <= j <= i ==> chains[index][j].key != key
      ensures i + 1 < |chains[index]| ==> chains[index][i + 1].key == key
    {
      hide Binds, Bucket, Holds;
      ghost var ns := chains[index];
      tmp, i := iterms[index], 0;
      var cmp := -1;
      if tmp.next != null {
        cmp := StringCmp(tmp.next.key, key);
      }
      while tmp.next != null && cmp != 0
        invariant 0 <= i < |ns| && tmp == ns[i]
        invariant tmp.next != null ==> cmp == if tmp.next.key == key then 0 else -1
        invariant forall j :: 0 <= j <= i ==> ns[j].key != key
        decreases |ns| - i
      {
        tmp := tmp.next;
        i := i + 1;
        if tmp.next != null {
          cmp := StringCmp(tmp.next.key, key);
        }
      }
    }

    method UnlinkFirst(index: nat)
      requires Valid() && index < HASH_LEN && chains[index] != []
      modifies this`chains, this`contents, iterms
      ensures Valid() && contents == old(contents) - {old(chains[index][0].key)}
    {
      hide Binds, Bucket, Holds;
      ghost var ns, key := chains[index], chains[index][0].key;
      InNoOther(index, 0);
      BindAllOthers(index, contents - {key}, key);
      BindsRemove(ns, index, contents, 0);
      RemoveFirst(ns);
      iterms[index] := iterms[index].next;
      chains, contents := chains[index := ns[1..]], contents - {key};
    }

    method UnlinkNext(index: nat, tmp: Node<V>, ghost i: nat)
      requires Valid() && index < HASH_LEN && i + 1 < |chains[index]| && tmp == chains[index][i]
      modifies this`chains, this`contents, tmp`next
      ensures Valid() && contents == old(contents) - {old(chains[index][i + 1].key)}
    {
      hide Binds, Bucket, Holds, Remove;
      ghost var ns, key := chains[index], chains[index][i + 1].key;
      InNoOther(index, i + 1);
      InNoOther(index, i);
      BindAllOthers(index, contents - {key}, key);
      BindsRemove(ns, index, contents, i + 1);
      tmp.next := tmp.next.next;
      chains, contents := chains[index := Remove(ns, i + 1)], contents - {key};
    }
  }
}
