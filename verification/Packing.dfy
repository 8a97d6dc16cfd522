/** Greedy packing with one-item lookahead, as both capture engines cut their
    sorted input into artifacts. */
module Packing {
  import opened Sequences
  import opened Wrappers

  /** How items are packed: their size, the most bytes of a pack with several
      items, and the most items of a pack if that is bounded. */
  datatype Rule<!T> = Rule(size: T -> nat, maxBytes: nat, maxCount: Option<nat>) {
    predicate Full(count: nat) {
      maxCount.Some? && count >= maxCount.value
    }

    predicate Usable() {
      maxCount.Some? ==> maxCount.value > 0
    }
  }

  function Total<T>(size: T -> nat, items: seq<T>): nat {
    if items == [] then 0 else size(items[0]) + Total(size, items[1..])
  }

  /** Continues a pack that has taken `count` items of `bytes` bytes. */
  function Grow<T>(rule: Rule<T>, items: seq<T>, count: nat, bytes: nat): (n: nat)
    ensures n <= |items|
  {
    if items == [] || rule.Full(count) || (count > 0 && bytes + rule.size(items[0]) > rule.maxBytes) then 0
    else 1 + Grow(rule, items[1..], count + 1, bytes + rule.size(items[0]))
  }

  /** The number of items in the first pack. */
  function PackLength<T>(rule: Rule<T>, items: seq<T>): (n: nat)
    requires rule.Usable()
    ensures n <= |items| && (items != [] ==> n > 0)
  {
    Grow(rule, items, 0, 0)
  }

  function Packs<T>(rule: Rule<T>, items: seq<T>): seq<seq<T>>
    requires rule.Usable()
    decreases |items|
  {
    if items == [] then []
    else [items[..PackLength(rule, items)]] + Packs(rule, items[PackLength(rule, items)..])
  }

  /** Whether the first n items may form one pack. */
  ghost predicate Admissible<T>(rule: Rule<T>, items: seq<T>, n: nat)
    requires n <= |items|
  {
    (rule.maxCount.Some? ==> n <= rule.maxCount.value) && (n <= 1 || Total(rule.size, items[..n]) <= rule.maxBytes)
  }

  lemma {:induction false} TotalSplit<T>(size: T -> nat, a: seq<T>, b: seq<T>)
    ensures Total(size, a + b) == Total(size, a) + Total(size, b)
  {
    if a == [] {
      assert a + b == b;
    } else {
      assert (a + b)[1..] == a[1..] + b;
      TotalSplit(size, a[1..], b);
    }
  }

  lemma TotalAppend<T>(size: T -> nat, a: seq<T>, x: T)
    ensures Total(size, a + [x]) == Total(size, a) + size(x)
  {
    TotalSplit(size, a, [x]);
    assert [x][1..] == [];
  }

  /** Growing takes the longest continuation that stays admissible. */
  lemma {:induction false} GrowIsLongest<T>(rule: Rule<T>, items: seq<T>, count: nat, bytes: nat, m: nat)
    requires 1 <= m <= |items|
    ensures m <= Grow(rule, items, count, bytes) <==>
            && (rule.maxCount.Some? ==> count + m <= rule.maxCount.value)
            && (count + m <= 1 || bytes + Total(rule.size, items[..m]) <= rule.maxBytes)
  {
    assert items[..m] == [items[0]] + items[1..][..m - 1];
    assert items[..m][1..] == items[1..][..m - 1];
    if m > 1 {
      GrowIsLongest(rule, items[1..], count + 1, bytes + rule.size(items[0]), m - 1);
    } else {
      assert items[1..][..0] == [];
    }
  }

  /** The first pack is the longest admissible prefix: this determines it. */
  lemma PackIsLongest<T>(rule: Rule<T>, items: seq<T>, m: nat)
    requires rule.Usable() && 1 <= m <= |items|
    ensures m <= PackLength(rule, items) <==> Admissible(rule, items, m)
  {
    GrowIsLongest(rule, items, 0, 0, m);
  }

  /** The packs concatenate to the items; each is a nonempty admissible pack, and
      its neighbour could not have started one item later. */
  lemma {:induction false} PacksPartition<T>(rule: Rule<T>, items: seq<T>)
    requires rule.Usable()
    ensures Flatten(Packs(rule, items)) == items
    ensures forall k | 0 <= k < |Packs(rule, items)| :: GoodPack(rule, Packs(rule, items)[k])
    decreases |items|
  {
    if items != [] {
      var n := PackLength(rule, items);
      assert items == items[..n] + items[n..];
      PackIsLongest(rule, items, n);
      PacksPartition(rule, items[n..]);
      var rest := Packs(rule, items[n..]);
      assert GoodPack(rule, items[..n]) by { assert items[..n] == items[..n][..n]; }
      forall k | 0 <= k < |Packs(rule, items)| ensures GoodPack(rule, Packs(rule, items)[k]) {
        if k > 0 {
          assert Packs(rule, items)[k] == rest[k - 1];
        }
      }
    }
  }

  ghost predicate GoodPack<T>(rule: Rule<T>, pack: seq<T>) {
    && pack != []
    && (rule.maxCount.Some? ==> |pack| <= rule.maxCount.value)
    && (|pack| == 1 || Total(rule.size, pack) <= rule.maxBytes)
  }

  /** What follows the first k packs is the packing of what they leave. */
  lemma {:induction false} PacksTail<T>(rule: Rule<T>, items: seq<T>, k: nat)
    requires rule.Usable() && k <= |Packs(rule, items)|
    ensures Packs(rule, items)[k..] == Packs(rule, Flatten(Packs(rule, items)[k..]))
    decreases k
  {
    if k == 0 {
      PacksPartition(rule, items);
    } else {
      var rest := items[PackLength(rule, items)..];
      assert Packs(rule, items)[k..] == Packs(rule, rest)[k - 1..];
      PacksTail(rule, rest, k - 1);
    }
  }

  /** Packing is memoryless: a prefix of the packs, then a fresh start. */
  lemma PacksResume<T>(rule: Rule<T>, items: seq<T>, k: nat)
    requires rule.Usable() && k <= |Packs(rule, items)|
    ensures var consumed := Flatten(Packs(rule, items)[..k]);
            && consumed <= items
            && Packs(rule, items)[k..] == Packs(rule, items[|consumed|..])
  {
    var packs := Packs(rule, items);
    PacksPartition(rule, items);
    assert packs == packs[..k] + packs[k..];
    FlattenSplit(packs[..k], packs[k..]);
    var consumed := Flatten(packs[..k]);
    assert items[|consumed|..] == Flatten(packs[k..]);
    PacksTail(rule, items, k);
  }
}
