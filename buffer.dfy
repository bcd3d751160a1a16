/** The bounded priority buffer. Its contents are a multiset of items: the
    priority queue inside it promises only that a `get` returns a least
    element, and that is all this model keeps of it. The two counting
    semaphores are integer fields; a wait on one of them becomes a
    precondition, and the mutex-protected bodies become atomic methods. */
module Buffers {
  import opened Items

  /** `x` is in `m` and no element of `m` is smaller. */
  predicate IsLeast(x: PriorityItem, m: multiset<PriorityItem>) {
    x in m && forall y {:trigger ItemLe(x, y)} :: y in m ==> ItemLe(x, y)
  }

  /** Every non-empty multiset of items has a least element. */
  lemma {:induction false} LeastExists(m: multiset<PriorityItem>)
    requires |m| > 0
    ensures exists x :: IsLeast(x, m)
    decreases |m|
  {
    var y :| y in m;
    var rest := m - multiset{y};
    if |rest| == 0 {
      assert m == multiset{y};
      assert IsLeast(y, m);
    } else {
      LeastExists(rest);
      var z :| IsLeast(z, rest);
      ItemLessTotal(y, z);
      if ItemLe(y, z) {
        forall w | w in m ensures ItemLe(y, w) {
          if w != y { ItemLeTransitive(y, z, w); }
        }
        assert IsLeast(y, m);
      } else {
        assert ItemLe(z, y);
        assert IsLeast(z, m);
      }
    }
  }

  /** The least element is unique: a `get` on a given content is determined. */
  lemma LeastUnique(x: PriorityItem, y: PriorityItem, m: multiset<PriorityItem>)
    requires IsLeast(x, m) && IsLeast(y, m)
    ensures x == y
  {
    ItemLeAntisymmetric(x, y);
  }

  /** The item a `get` returns from a non-empty content. */
  ghost function Least(m: multiset<PriorityItem>): (x: PriorityItem)
    requires |m| > 0
    ensures IsLeast(x, m)
  {
    LeastExists(m);
    var x :| IsLeast(x, m); x
  }

  /** The order in which repeated `get`s empty a buffer that receives no `put`. */
  ghost function DrainOrder(m: multiset<PriorityItem>): (s: seq<PriorityItem>)
    ensures |s| == |m|
    decreases |m|
  {
    if |m| == 0 then [] else [Least(m)] + DrainOrder(m - multiset{Least(m)})
  }

  /** One `get` takes the first item of the drain order. */
  lemma DrainOrderStep(m: multiset<PriorityItem>, x: PriorityItem)
    requires IsLeast(x, m)
    ensures DrainOrder(m) == [x] + DrainOrder(m - multiset{x})
  {
    LeastUnique(x, Least(m), m);
  }

  /** Draining hands out every item of the content exactly once. */
  lemma {:induction false} DrainOrderIsPermutation(m: multiset<PriorityItem>)
    ensures multiset(DrainOrder(m)) == m
    decreases |m|
  {
    if |m| > 0 {
      var x := Least(m);
      DrainOrderIsPermutation(m - multiset{x});
      assert multiset(DrainOrder(m)) == multiset{x} + multiset(DrainOrder(m - multiset{x}));
    }
  }

  /** Each item is at most every item after it. */
  predicate Sorted(s: seq<PriorityItem>) {
    forall i, j :: 0 <= i < j < |s| ==> ItemLe(s[i], s[j])
  }

  /** In a sorted sequence an item of strictly more urgent priority than the
      one at `j` stands before `j`. */
  lemma UrgentComesEarlier(s: seq<PriorityItem>, x: PriorityItem, j: nat)
    requires Sorted(s) && x in s
    requires j < |s| && x.priority < s[j].priority
    ensures x in s[..j]
  {
    var i :| 0 <= i < |s| && s[i] == x;
    if i > j {
      PriorityDominates(s[j], s[i]);
    }
    assert s[..j][i] == x;
  }

  /** Draining hands the items out in non-decreasing order. */
  lemma {:induction false} DrainOrderIsSorted(m: multiset<PriorityItem>)
    ensures Sorted(DrainOrder(m))
    decreases |m|
  {
    if |m| > 0 {
      var x := Least(m);
      var rest := m - multiset{x};
      var s := DrainOrder(m);
      DrainOrderIsSorted(rest);
      DrainOrderIsPermutation(rest);
      assert s[1..] == DrainOrder(rest);
      forall i, j | 0 <= i < j < |s| ensures ItemLe(s[i], s[j]) {
        if i == 0 {
          assert s[j] == DrainOrder(rest)[j - 1];
          assert s[j] in multiset(DrainOrder(rest));
        } else {
          assert s[i] == DrainOrder(rest)[i - 1] && s[j] == DrainOrder(rest)[j - 1];
        }
      }
    }
  }

  /** Priority dominance for a single `get`: the item served carries the most
      urgent priority present, so a LOW item is never served while a
      CRITICAL one waits. */
  lemma LeastHasMostUrgentPriority(m: multiset<PriorityItem>, x: PriorityItem)
    requires x in m
    ensures Least(m).priority <= x.priority
    ensures x.priority < Least(m).priority ==> false
  {
    PriorityDominates(Least(m), x);
  }

  /** Priority dominance across a drain: whenever two items of different
      priorities are both present, the more urgent one is served before the
      other, whatever order they were put in. */
  lemma UrgentServedFirst(m: multiset<PriorityItem>, x: PriorityItem, j: nat)
    requires x in m
    requires j < |DrainOrder(m)| && x.priority < DrainOrder(m)[j].priority
    ensures x in DrainOrder(m)[..j]
  {
    var s := DrainOrder(m);
    DrainOrderIsPermutation(m);
    DrainOrderIsSorted(m);
    assert x in multiset(s);
    UrgentComesEarlier(s, x, j);
  }

  /** Three items of priorities LOW, CRITICAL and MEDIUM that are all present
      before any `get` are served CRITICAL, MEDIUM, LOW. */
  lemma ThreeLevelsDrainInPriorityOrder(low: PriorityItem, critical: PriorityItem, medium: PriorityItem)
    requires low.priority == Low.Value()
    requires critical.priority == Critical.Value()
    requires medium.priority == Medium.Value()
    ensures DrainOrder(multiset{low, critical, medium}) == [critical, medium, low]
  {
    var m := multiset{low, critical, medium};
    assert IsLeast(critical, m);
    LeastUnique(Least(m), critical, m);
    var m1 := m - multiset{critical};
    assert m1 == multiset{low, medium};
    assert IsLeast(medium, m1);
    LeastUnique(Least(m1), medium, m1);
    var m2 := m1 - multiset{medium};
    assert m2 == multiset{low};
    assert IsLeast(low, m2);
    LeastUnique(Least(m2), low, m2);
    assert m2 - multiset{low} == multiset{};
    assert DrainOrder(m2) == [low];
    assert DrainOrder(m1) == [medium] + DrainOrder(m2);
    assert DrainOrder(m) == [critical] + DrainOrder(m1);
  }

  /** Within one priority the buffer is not first-in-first-out: the smaller
      `item_id` is served first, whichever of the two was put in first. */
  lemma SamePriorityServedByIdNotArrival(first: PriorityItem, second: PriorityItem)
    requires first.priority == second.priority && second.itemId < first.itemId
    ensures Least(multiset{first} + multiset{second}) == second
  {
    var m := multiset{first} + multiset{second};
    assert IsLeast(second, m);
    LeastUnique(Least(m), second, m);
  }

  /** The number of items of `s` whose priority value is `v`. */
  function CountPriority(s: seq<PriorityItem>, v: int): (n: nat)
    ensures n <= |s|
    decreases |s|
  {
    if s == [] then 0
    else CountPriority(s[..|s| - 1], v) + (if s[|s| - 1].priority == v then 1 else 0)
  }

  /** The number of items of `s` whose priority is none of the four levels. */
  function CountOutOfRange(s: seq<PriorityItem>): (n: nat)
    ensures n <= |s|
    decreases |s|
  {
    if s == [] then 0
    else CountOutOfRange(s[..|s| - 1]) + (if PriorityOf(s[|s| - 1].priority).None? then 1 else 0)
  }

  lemma CountAppend(s: seq<PriorityItem>, x: PriorityItem)
    ensures forall v :: CountPriority(s + [x], v) == CountPriority(s, v) + (if x.priority == v then 1 else 0)
    ensures CountOutOfRange(s + [x]) == CountOutOfRange(s) + (if PriorityOf(x.priority).None? then 1 else 0)
  {
    assert (s + [x])[..|s|] == s;
  }

  /** The map has an entry for each of the four levels. */
  predicate HasAllLevels(counts: map<Priority, nat>) {
    Critical in counts && High in counts && Medium in counts && Low in counts
  }

  /** `counts` holds, for each level, how many items of `s` carry it. */
  ghost predicate CountsMatch(counts: map<Priority, nat>, s: seq<PriorityItem>) {
    && HasAllLevels(counts)
    && counts[Critical] == CountPriority(s, 1)
    && counts[High] == CountPriority(s, 2)
    && counts[Medium] == CountPriority(s, 3)
    && counts[Low] == CountPriority(s, 4)
  }

  /** The per-level counts after one more item of priority value `v` is
      produced: the count of its level goes up by one when `v` names a level;
      otherwise nothing changes. */
  function CountProduced(counts: map<Priority, nat>, v: int): (r: map<Priority, nat>)
    requires HasAllLevels(counts)
    ensures HasAllLevels(r) && r.Keys == counts.Keys
    ensures r[Critical] == counts[Critical] + (if v == Critical.Value() then 1 else 0)
    ensures r[High] == counts[High] + (if v == High.Value() then 1 else 0)
    ensures r[Medium] == counts[Medium] + (if v == Medium.Value() then 1 else 0)
    ensures r[Low] == counts[Low] + (if v == Low.Value() then 1 else 0)
  {
    match PriorityOf(v)
    case Some(level) => counts[level := counts[level] + 1]
    case None => counts
  }

  /** Producing `x` keeps the per-level counts in step with the history. */
  lemma CountsMatchAppend(counts: map<Priority, nat>, s: seq<PriorityItem>, x: PriorityItem)
    requires CountsMatch(counts, s)
    ensures CountsMatch(CountProduced(counts, x.priority), s + [x])
  {
    CountAppend(s, x);
    var r := CountProduced(counts, x.priority);
    assert r[Critical] == counts[Critical] + (if x.priority == 1 then 1 else 0);
    assert r[High] == counts[High] + (if x.priority == 2 then 1 else 0);
    assert r[Medium] == counts[Medium] + (if x.priority == 3 then 1 else 0);
    assert r[Low] == counts[Low] + (if x.priority == 4 then 1 else 0);
  }

  function SumCounts(counts: map<Priority, nat>): int
    requires HasAllLevels(counts)
  {
    counts[Critical] + counts[High] + counts[Medium] + counts[Low]
  }

  /** Every item is counted under its own level or as out of range, once. */
  lemma {:induction false} PriorityCountsPartition(s: seq<PriorityItem>)
    ensures CountPriority(s, 1) + CountPriority(s, 2) + CountPriority(s, 3) + CountPriority(s, 4)
              + CountOutOfRange(s) == |s|
    decreases |s|
  {
    if s != [] {
      PriorityCountsPartition(s[..|s| - 1]);
    }
  }

  /** A point-in-time snapshot of the buffer's statistics. */
  datatype Stats = Stats(
    size: int,
    maxSize: int,
    totalProduced: int,
    totalConsumed: int,
    itemsByPriority: map<string, int>)

  class PriorityBuffer {
    /** The capacity. */
    const maxSize: nat
    /** The items waiting in the priority queue. */
    var contents: multiset<PriorityItem>
    /** The counter of the `empty_slots` semaphore. */
    var emptySlots: int
    /** The counter of the `filled_slots` semaphore. */
    var filledSlots: int
    var totalProduced: nat
    var totalConsumed: nat
    /** How many items of each level were ever produced. */
    var itemsByPriority: map<Priority, nat>
    /** Every item ever produced, and every item ever consumed, in order. */
    ghost var produced: seq<PriorityItem>
    ghost var consumed: seq<PriorityItem>

    /** The buffer's invariant at every point where no operation is in flight. */
    ghost predicate Valid()
      reads this
    {
      && |contents| <= maxSize
      && filledSlots == |contents|
      && emptySlots == maxSize - |contents|
      && totalProduced == |produced|
      && totalConsumed == |consumed|
      && totalProduced - totalConsumed == |contents|
      && multiset(produced) == multiset(consumed) + contents
      && CountsMatch(itemsByPriority, produced)
    }

    /** An empty buffer with capacity `maxSize`: all slots free, nothing
        produced or consumed, every level counted zero. */
    constructor (maxSize: nat := 10)
      ensures Valid()
      ensures this.maxSize == maxSize
      ensures contents == multiset{} && produced == [] && consumed == []
      ensures emptySlots == maxSize && filledSlots == 0
      ensures totalProduced == 0 && totalConsumed == 0
      ensures itemsByPriority == map[Critical := 0, High := 0, Medium := 0, Low := 0]
    {
      this.maxSize := maxSize;
      contents := multiset{};
      emptySlots := maxSize;
      filledSlots := 0;
      totalProduced := 0;
      totalConsumed := 0;
      itemsByPriority := map[Critical := 0, High := 0, Medium := 0, Low := 0];
      produced := [];
      consumed := [];
    }

    /** Puts `item` in the buffer. The caller waits on `empty_slots` until a
        slot is free, so the model requires one. */
    method Produce(item: PriorityItem)
      requires Valid()
      requires emptySlots > 0
      modifies this
      ensures Valid()
      ensures contents == old(contents) + multiset{item}
      ensures produced == old(produced) + [item] && consumed == old(consumed)
      ensures totalProduced == old(totalProduced) + 1 && totalConsumed == old(totalConsumed)
      ensures itemsByPriority == CountProduced(old(itemsByPriority), item.priority)
      ensures emptySlots == old(emptySlots) - 1 && filledSlots == old(filledSlots) + 1
    {
      CountsMatchAppend(itemsByPriority, produced, item);
      emptySlots, contents, totalProduced, itemsByPriority, produced, filledSlots :=
        emptySlots - 1, contents + multiset{item}, totalProduced + 1,
        CountProduced(itemsByPriority, item.priority), produced + [item], filledSlots + 1;
    }

    /** Takes the least item out of the buffer. The caller waits on
        `filled_slots` until an item is there, so the model requires one. */
    method Consume() returns (item: PriorityItem)
      requires Valid()
      requires filledSlots > 0
      modifies this
      ensures Valid()
      ensures IsLeast(item, old(contents)) && item == Least(old(contents))
      ensures contents == old(contents) - multiset{item}
      ensures consumed == old(consumed) + [item] && produced == old(produced)
      ensures totalConsumed == old(totalConsumed) + 1 && totalProduced == old(totalProduced)
      ensures itemsByPriority == old(itemsByPriority)
      ensures filledSlots == old(filledSlots) - 1 && emptySlots == old(emptySlots) + 1
    {
      LeastExists(contents);
      item :| IsLeast(item, contents);
      LeastUnique(item, Least(contents), contents);
      filledSlots, contents, totalConsumed, consumed, emptySlots :=
        filledSlots - 1, contents - multiset{item}, totalConsumed + 1, consumed + [item], emptySlots + 1;
    }

    /** The statistics snapshot: a read that changes nothing, whose numbers
        satisfy the buffer invariant, with the per-level counts keyed by name. */
    function GetStats(): (s: Stats)
      requires Valid()
      reads this
      ensures s.size == |contents| && s.maxSize == maxSize
      ensures s.totalProduced == totalProduced && s.totalConsumed == totalConsumed
      ensures 0 <= s.size <= s.maxSize && s.size == s.totalProduced - s.totalConsumed
      ensures |s.itemsByPriority| == 4
      ensures forall p: Priority :: p.Name() in s.itemsByPriority
      ensures forall p: Priority :: s.itemsByPriority[p.Name()] == itemsByPriority[p]
    {
      Stats(|contents|, maxSize, totalProduced, totalConsumed,
            map[Critical.Name() := itemsByPriority[Critical],
                High.Name() := itemsByPriority[High],
                Medium.Name() := itemsByPriority[Medium],
                Low.Name() := itemsByPriority[Low]])
    }

    /** The per-level counts add up to the number of items produced, less
        those whose priority is none of the four levels; when every item had
        a proper level they add up to `total_produced` exactly. */
    lemma CountsSumToProduced()
      requires Valid()
      ensures SumCounts(itemsByPriority) == totalProduced - CountOutOfRange(produced)
      ensures CountOutOfRange(produced) == 0 ==> SumCounts(itemsByPriority) == totalProduced
    {
      PriorityCountsPartition(produced);
    }
  }
}
