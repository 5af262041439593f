/** Insertion-ordered grouping: a dictionary of lists built by "create the list on
    first sight of the key, then append", as in JavaScript's `groups[k].push(v)`
    after `if (!groups[k]) groups[k] = []`, and in Python's
    `if k not in d: d[k] = []` followed by `d[k].append(v)`. Keys keep their
    insertion order, as both languages' dictionaries do for string keys. */
module Groups {
  import opened Seqs

  datatype Group<K, V> = Group(key: K, items: seq<V>)

  function Keys<K, V>(gs: seq<Group<K, V>>): (ks: seq<K>)
    ensures |ks| == |gs|
  {
    if gs == [] then [] else [gs[0].key] + Keys(gs[1..])
  }

  /** The list stored under `k`, or the empty list when `k` has no group. */
  function ItemsOf<K(==), V>(gs: seq<Group<K, V>>, k: K): seq<V> {
    if gs == [] then []
    else if gs[0].key == k then gs[0].items
    else ItemsOf(gs[1..], k)
  }

  /** Every stored value, group by group. */
  function Flatten<K, V>(gs: seq<Group<K, V>>): seq<V> {
    if gs == [] then [] else gs[0].items + Flatten(gs[1..])
  }

  lemma {:induction false} FlattenAppend<K, V>(a: seq<Group<K, V>>, b: seq<Group<K, V>>)
    ensures Flatten(a + b) == Flatten(a) + Flatten(b)
  {
    if a == [] {
      assert a + b == b;
    } else {
      assert (a + b)[0] == a[0];
      assert (a + b)[1..] == a[1..] + b;
      FlattenAppend(a[1..], b);
    }
  }

  /** Append `v` to the list of `k`, creating that list at the end if needed. */
  function Add<K(==), V>(gs: seq<Group<K, V>>, k: K, v: V): seq<Group<K, V>> {
    if gs == [] then [Group(k, [v])]
    else if gs[0].key == k then [Group(k, gs[0].items + [v])] + gs[1..]
    else [gs[0]] + Add(gs[1..], k, v)
  }

  /** All pairs folded left to right with `Add`. */
  function GroupPairs<K(==), V>(ps: seq<(K, V)>): seq<Group<K, V>> {
    if ps == [] then []
    else Add(GroupPairs(ps[..|ps| - 1]), ps[|ps| - 1].0, ps[|ps| - 1].1)
  }

  function Firsts<K, V>(ps: seq<(K, V)>): (r: seq<K>)
    ensures |r| == |ps|
  {
    if ps == [] then [] else Firsts(ps[..|ps| - 1]) + [ps[|ps| - 1].0]
  }

  function Seconds<K, V>(ps: seq<(K, V)>): (r: seq<V>)
    ensures |r| == |ps|
  {
    if ps == [] then [] else Seconds(ps[..|ps| - 1]) + [ps[|ps| - 1].1]
  }

  /** The values paired with `k`, in order. */
  function ValuesFor<K(==), V>(ps: seq<(K, V)>, k: K): seq<V> {
    if ps == [] then []
    else ValuesFor(ps[..|ps| - 1], k) + (if ps[|ps| - 1].0 == k then [ps[|ps| - 1].1] else [])
  }

  lemma {:induction false} AddKeys<K, V>(gs: seq<Group<K, V>>, k: K, v: V)
    ensures Keys(Add(gs, k, v)) == if k in Keys(gs) then Keys(gs) else Keys(gs) + [k]
  {
    if gs != [] && gs[0].key != k {
      AddKeys(gs[1..], k, v);
      assert Keys(gs) == [gs[0].key] + Keys(gs[1..]);
    }
  }

  lemma {:induction false} AddItemsOf<K, V>(gs: seq<Group<K, V>>, k: K, v: V, j: K)
    ensures ItemsOf(Add(gs, k, v), j) == ItemsOf(gs, j) + (if j == k then [v] else [])
  {
    if gs != [] && gs[0].key != k {
      AddItemsOf(gs[1..], k, v, j);
    }
  }

  lemma {:induction false} AddFlatten<K, V>(gs: seq<Group<K, V>>, k: K, v: V)
    ensures multiset(Flatten(Add(gs, k, v))) == multiset(Flatten(gs)) + multiset{v}
  {
    if gs != [] {
      if gs[0].key == k {
        assert Flatten(Add(gs, k, v)) == gs[0].items + [v] + Flatten(gs[1..]);
      } else {
        AddFlatten(gs[1..], k, v);
      }
    }
  }

  /** With distinct keys, a group's list is the list looked up under its key. */
  lemma {:induction false} ItemsOfGroup<K, V>(gs: seq<Group<K, V>>, i: nat)
    requires NoDuplicates(Keys(gs)) && i < |gs|
    ensures ItemsOf(gs, gs[i].key) == gs[i].items
  {
    if i > 0 {
      assert Keys(gs)[0] == gs[0].key;
      assert Keys(gs[1..]) == Keys(gs)[1..];
      assert Keys(gs)[i] == gs[i].key by {
        KeyAt(gs, i);
      }
      ItemsOfGroup(gs[1..], i - 1);
    }
  }

  lemma {:induction false} KeyAt<K, V>(gs: seq<Group<K, V>>, i: nat)
    requires i < |gs|
    ensures Keys(gs)[i] == gs[i].key
  {
    if i > 0 {
      KeyAt(gs[1..], i - 1);
    }
  }

  lemma {:induction false} FirstsAt<K, V>(ps: seq<(K, V)>, i: nat)
    requires i < |ps|
    ensures Firsts(ps)[i] == ps[i].0
  {
    if i < |ps| - 1 {
      FirstsAt(ps[..|ps| - 1], i);
    }
  }

  /** Grouping keeps every pair exactly once: the keys are the distinct keys in
      first-seen order, the list under each key is exactly the values paired
      with it in input order, and no value is lost or duplicated. */
  lemma {:induction false} GroupPairsSpec<K, V>(ps: seq<(K, V)>)
    ensures Keys(GroupPairs(ps)) == Distinct(Firsts(ps))
    ensures forall k :: ItemsOf(GroupPairs(ps), k) == ValuesFor(ps, k)
    ensures multiset(Flatten(GroupPairs(ps))) == multiset(Seconds(ps))
  {
    if ps != [] {
      var p, last := ps[..|ps| - 1], ps[|ps| - 1];
      var gs := GroupPairs(p);
      GroupPairsSpec(p);
      AddKeys(gs, last.0, last.1);
      AddFlatten(gs, last.0, last.1);
      assert Firsts(ps)[..|ps| - 1] == Firsts(p);
      forall k ensures ItemsOf(GroupPairs(ps), k) == ValuesFor(ps, k) {
        AddItemsOf(gs, last.0, last.1, k);
      }
    }
  }

  /** Each group, read in place, holds exactly the values of its key. */
  lemma {:induction false} GroupItems<K, V>(ps: seq<(K, V)>, i: nat)
    requires i < |GroupPairs(ps)|
    ensures GroupPairs(ps)[i].items == ValuesFor(ps, GroupPairs(ps)[i].key)
  {
    var gs := GroupPairs(ps);
    GroupPairsSpec(ps);
    assert NoDuplicates(Keys(gs));
    ItemsOfGroup(gs, i);
    assert ItemsOf(gs, gs[i].key) == ValuesFor(ps, gs[i].key);
  }

  /** The first half of `GroupPairsSpec` alone: the keys in first-seen order. */
  lemma GroupPairsKeys<K, V>(ps: seq<(K, V)>)
    ensures Keys(GroupPairs(ps)) == Distinct(Firsts(ps))
  {
    GroupPairsSpec(ps);
  }
}
