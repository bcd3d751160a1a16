/** The producer worker: a loop that creates items numbered from its counter
    up to its quota and puts each into the shared buffer. The random choice
    of a level and the clock reading of each item are inputs: the `k`-th
    item takes `choices[k]` and `clock[k]`. */
module Producers {
  import opened Items
  import opened Buffers

  /** The item the producer's loop creates when its counter is `k`. */
  function MakeItem(producerId: int, k: nat, level: Priority, timestamp: int): PriorityItem {
    PriorityItem(level.Value(), k, ItemData(producerId, k), timestamp)
  }

  /** The items the loop creates while its counter runs from `lo` up to
      `hi`, in the order it creates them. */
  function Generated(producerId: int, lo: nat, hi: nat, choices: seq<Priority>, clock: seq<int>): (s: seq<PriorityItem>)
    requires lo <= hi <= |choices| && hi <= |clock|
    ensures |s| == hi - lo
    decreases hi
  {
    if hi == lo then []
    else Generated(producerId, lo, hi - 1, choices, clock) + [MakeItem(producerId, hi - 1, choices[hi - 1], clock[hi - 1])]
  }

  /** The `i`-th generated item has id `lo + i`, so the ids increase by one
      from item to item; its level is the one chosen for it, its data names
      the producer and the id, and its timestamp is the clock reading taken
      for it. */
  lemma {:induction false} GeneratedAt(producerId: int, lo: nat, hi: nat, choices: seq<Priority>, clock: seq<int>, i: nat)
    requires lo <= hi <= |choices| && hi <= |clock|
    requires i < hi - lo
    ensures Generated(producerId, lo, hi, choices, clock)[i].itemId == lo + i
    ensures Generated(producerId, lo, hi, choices, clock)[i].priority == choices[lo + i].Value()
    ensures Generated(producerId, lo, hi, choices, clock)[i].data == ItemData(producerId, lo + i)
    ensures Generated(producerId, lo, hi, choices, clock)[i].timestamp == clock[lo + i]
    decreases hi
  {
    if i < hi - 1 - lo {
      GeneratedAt(producerId, lo, hi - 1, choices, clock, i);
    }
  }

  /** Every generated item carries one of the four levels. */
  lemma {:induction false} GeneratedInRange(producerId: int, lo: nat, hi: nat, choices: seq<Priority>, clock: seq<int>)
    requires lo <= hi <= |choices| && hi <= |clock|
    ensures CountOutOfRange(Generated(producerId, lo, hi, choices, clock)) == 0
    decreases hi
  {
    if hi > lo {
      var s := Generated(producerId, lo, hi, choices, clock);
      GeneratedInRange(producerId, lo, hi - 1, choices, clock);
      assert s[..|s| - 1] == Generated(producerId, lo, hi - 1, choices, clock);
    }
  }

  /** Items of one producer are pairwise distinct: no two share an id, and
      no two share a data string. */
  lemma GeneratedDistinct(producerId: int, lo: nat, hi: nat, choices: seq<Priority>, clock: seq<int>, i: nat, j: nat)
    requires lo <= hi <= |choices| && hi <= |clock|
    requires i < j < hi - lo
    ensures Generated(producerId, lo, hi, choices, clock)[i].itemId < Generated(producerId, lo, hi, choices, clock)[j].itemId
    ensures Generated(producerId, lo, hi, choices, clock)[i].data != Generated(producerId, lo, hi, choices, clock)[j].data
  {
    GeneratedAt(producerId, lo, hi, choices, clock, i);
    GeneratedAt(producerId, lo, hi, choices, clock, j);
    if ItemData(producerId, lo + i) == ItemData(producerId, lo + j) {
      ItemDataInjective(producerId, lo + i, lo + j);
    }
  }

  /** A run only adds items carrying one of the four levels, so it leaves
      the number of out-of-range items in the history as it was. */
  lemma GeneratedKeepsLevelsInRange(before: seq<PriorityItem>, producerId: int, lo: nat, hi: nat, choices: seq<Priority>, clock: seq<int>)
    requires lo <= hi <= |choices| && hi <= |clock|
    ensures CountOutOfRange(before + Generated(producerId, lo, hi, choices, clock)) == CountOutOfRange(before)
  {
    GeneratedInRange(producerId, lo, hi, choices, clock);
    CountOutOfRangeConcat(before, Generated(producerId, lo, hi, choices, clock));
  }

  lemma {:induction false} CountOutOfRangeConcat(a: seq<PriorityItem>, b: seq<PriorityItem>)
    ensures CountOutOfRange(a + b) == CountOutOfRange(a) + CountOutOfRange(b)
    decreases |b|
  {
    if b != [] {
      var c, b', x := a + b, b[..|b| - 1], b[|b| - 1];
      assert c[..|c| - 1] == a + b';
      assert c[|c| - 1] == x;
      CountOutOfRangeConcat(a, b');
      var last := if PriorityOf(x.priority).None? then 1 else 0;
      assert CountOutOfRange(c) == CountOutOfRange(a + b') + last;
      assert CountOutOfRange(b) == CountOutOfRange(b') + last;
    } else {
      assert a + b == a;
    }
  }

  /** With the consumed history fixed, the conservation law determines the
      content from the produced history: extending that history by `g` adds
      exactly the items of `g`. */
  lemma ContentsFollowHistory(p: seq<PriorityItem>, c: seq<PriorityItem>, m0: multiset<PriorityItem>,
                              g: seq<PriorityItem>, m1: multiset<PriorityItem>)
    requires multiset(p) == multiset(c) + m0
    requires multiset(p + g) == multiset(c) + m1
    ensures m1 == m0 + multiset(g)
  {
    assert multiset(p + g) == multiset(p) + multiset(g);
    var r := m0 + multiset(g);
    assert multiset(c) + m1 == multiset(c) + r;
    forall x ensures m1[x] == r[x] {
      assert (multiset(c) + m1)[x] == (multiset(c) + r)[x];
    }
  }

  class Producer {
    const producerId: int
    const buffer: PriorityBuffer
    /** The quota. */
    const numItems: int
    /** Cleared by `Stop`. */
    var running: bool
    /** How many items this producer has put so far; also the next item's id. */
    var itemCounter: nat

    ghost predicate Valid()
      reads this, buffer
    {
      buffer.Valid() && itemCounter <= (if numItems < 0 then 0 else numItems)
    }

    constructor (producerId: int, buffer: PriorityBuffer, numItems: int := 10)
      requires buffer.Valid()
      ensures Valid()
      ensures this.producerId == producerId && this.buffer == buffer && this.numItems == numItems
      ensures running && itemCounter == 0
    {
      this.producerId := producerId;
      this.buffer := buffer;
      this.numItems := numItems;
      running := true;
      itemCounter := 0;
    }

    /** Asks the loop to end before its next item. */
    method Stop()
      modifies this
      ensures !running && itemCounter == old(itemCounter)
    {
      running := false;
    }

    /** One pass of the loop body: the item numbered by the counter, with the
        level chosen for it and the clock reading taken for it, goes into the
        buffer and the counter moves on, so the history of a run that began
        at `start` grows by exactly the next generated item. */
    method PutNext(choices: seq<Priority>, clock: seq<int>, ghost start: nat, ghost before: seq<PriorityItem>)
      requires Valid() && buffer.emptySlots > 0 && itemCounter < numItems
      requires start <= itemCounter < |choices| && itemCounter < |clock|
      requires buffer.produced == before + Generated(producerId, start, itemCounter, choices, clock)
      modifies this, buffer
      ensures Valid() && running == old(running)
      ensures itemCounter == old(itemCounter) + 1
      ensures buffer.produced == before + Generated(producerId, start, itemCounter, choices, clock)
      ensures buffer.consumed == old(buffer.consumed)
      ensures buffer.emptySlots == old(buffer.emptySlots) - 1
    {
      var item := MakeItem(producerId, itemCounter, choices[itemCounter], clock[itemCounter]);
      buffer.Produce(item);
      itemCounter := itemCounter + 1;
    }

    /** The producer's loop. Each `Produce` would wait for a free slot; with
        no consumer running beside it here, the buffer must have room for
        every item still to come. A running producer puts the items numbered
        from its counter up to its quota, in that order, and stops there; a
        stopped one puts nothing. */
    method Run(choices: seq<Priority>, clock: seq<int>)
      requires Valid()
      requires numItems <= |choices| && numItems <= |clock|
      requires running && itemCounter < numItems ==> numItems - itemCounter <= buffer.emptySlots
      modifies this, buffer
      ensures Valid() && running == old(running)
      ensures itemCounter == if running && old(itemCounter) < numItems then numItems else old(itemCounter)
      ensures buffer.produced == old(buffer.produced) + Generated(producerId, old(itemCounter), itemCounter, choices, clock)
      ensures buffer.contents == old(buffer.contents) + multiset(Generated(producerId, old(itemCounter), itemCounter, choices, clock))
      ensures buffer.consumed == old(buffer.consumed)
    {
      ghost var start := itemCounter;
      while running && itemCounter < numItems
        invariant Valid() && running == old(running)
        invariant start <= itemCounter <= |choices| && itemCounter <= |clock|
        invariant itemCounter > start ==> running && itemCounter <= numItems
        invariant buffer.produced == old(buffer.produced) + Generated(producerId, start, itemCounter, choices, clock)
        invariant buffer.consumed == old(buffer.consumed)
        invariant running && itemCounter < numItems ==> numItems - itemCounter <= buffer.emptySlots
        decreases numItems - itemCounter
      {
        PutNext(choices, clock, start, old(buffer.produced));
      }
      ContentsFollowHistory(old(buffer.produced), buffer.consumed, old(buffer.contents),
                            Generated(producerId, start, itemCounter, choices, clock), buffer.contents);
    }
  }
}
