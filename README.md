# Priority producer–consumer buffer

This project models the sequential core of a multi-threaded producer–consumer
system with priorities:

- the four `Priority` levels;
- the order on `PriorityItem`s;
- the bounded `PriorityBuffer`, with its `produce`, `consume` and `get_stats`
  operations and its statistics;
- the item-generating loop of `Producer.run`.

The project has three modules, one per file:

- `Items` (`items.dfy`): priority levels, items, their lexicographic order,
  and the decimal rendering used in item data strings.
- `Buffers` (`buffer.dfy`): the buffer as a class.
  - The items waiting in the priority queue are a `multiset`.
  - The two counting semaphores `empty_slots` and `filled_slots` are integer
    fields.
  - The statistics are fields.
  - Two ghost histories, every item ever produced and every item ever
    consumed, carry the conservation law.
  - A wait on a semaphore becomes a precondition of the operation.
  - The body guarded by the mutex becomes one atomic method.
- `Producers` (`producer.dfy`): the producer as a class whose `Run` loop
  increments its item counter and puts one item per turn into the buffer.

The buffer invariant `PriorityBuffer.Valid` holds between operations. It says:

- the size is at most `max_size`;
- `filled_slots` equals the size and `empty_slots` equals `max_size` minus
  the size;
- the totals are the lengths of the histories, and
  `total_produced - total_consumed` equals the size;
- the items produced are exactly the items consumed plus the items waiting;
- each entry of `items_by_priority` is the number of items of that level
  ever produced.

Three places where the code differs from its own design description. The model
follows the code in each:

- **Priority values.** The levels are CRITICAL=1, HIGH=2, MEDIUM=3 and LOW=4,
  not 0–3.
- **Ties are not broken by arrival order.** `PriorityItem` is an ordered
  dataclass, so two items compare as the tuples (priority, item_id, data,
  timestamp). Within one priority the smaller `item_id` is served first,
  whichever arrived first; `SamePriorityServedByIdNotArrival` proves this.
  No insertion sequence number is involved.
- **`items_by_priority` counts every item ever produced, per level.**
  `consume` never decrements it, so it does not describe the current contents.

## Model

| member | source | states |
|---|---|---|
| Items.Priority.Value | producer_consumer.py:15-20 | a level's value lies in 1..4; it is 1 exactly for CRITICAL and 4 exactly for LOW |
| Items.Priority.Name | producer_consumer.py:84 | the member name that keys the per-level statistics is a non-empty name of at least three letters |
| Items.NamesDistinct | producer_consumer.py:84 | two levels have the same name if and only if they are the same level, so keying the statistics by name loses no entry |
| Items.PriorityOf | producer_consumer.py:60-61 | the test `item.priority in Priority` succeeds if and only if the value is one of 1, 2, 3, 4 |
| Items.PriorityOfInvertsValue | producer_consumer.py:60-61 | converting a level's value back gives that level, and a successful conversion of `v` gives a level whose value is `v` |
| Items.StrLessIrreflexive | producer_consumer.py:28 | no string is less than itself in Python's lexicographic string order |
| Items.StrLessTransitive | producer_consumer.py:28 | the string order is transitive |
| Items.StrLessTotal | producer_consumer.py:28 | two strings differ if and only if one is less than the other, and never both ways |
| Items.ItemLessIrreflexive | producer_consumer.py:23-29 | no item is less than itself under the tuple order (priority, item_id, data, timestamp) |
| Items.ItemLessTransitive | producer_consumer.py:23-29 | the item order is transitive |
| Items.ItemLessTotal | producer_consumer.py:23-29 | two items differ if and only if one is less than the other, and never both ways |
| Items.ItemLeTransitive | producer_consumer.py:23-29 | `<=` on items is transitive |
| Items.ItemLeAntisymmetric | producer_consumer.py:23-29 | two items each `<=` the other are equal |
| Items.PriorityDominates | producer_consumer.py:23-26 | a strictly more urgent item is strictly smaller whatever its other fields are, and `a <= b` implies a.priority <= b.priority |
| Items.NatToDecimal | producer_consumer.py:111 | rendering a counter gives at least one character |
| Items.NatToDecimalDigits | producer_consumer.py:111 | the rendering of a counter is all decimal digits with no leading zero |
| Items.IntToDecimal | producer_consumer.py:111 | rendering a producer id gives at least one character |
| Items.NatDecimalRoundTrip | producer_consumer.py:111 | reading back the digits of a rendered counter gives the counter |
| Items.IntDecimalRoundTrip | producer_consumer.py:111 | reading back a rendered id, minus sign included, gives the id |
| Items.ItemDataInjective | producer_consumer.py:111 | two data strings `Producer-{id}-Item-{k}` of one producer are equal only for equal `k` |
| Buffers.LeastExists | producer_consumer.py:70 | every non-empty content has an item that is `<=` every item in it, so a `get` always has something to return |
| Buffers.LeastUnique | producer_consumer.py:70 | that least item is unique, so what `get` returns is determined by the content |
| Buffers.Least | producer_consumer.py:70 | the item a `get` returns is in the content and is `<=` every item in it |
| Buffers.DrainOrder | producer_consumer.py:65-74 | repeated `get`s on a buffer that receives no `put` return as many items as the content holds |
| Buffers.DrainOrderStep | producer_consumer.py:65-74 | the first item of that drain is the least item, and the rest is the drain of what remains |
| Buffers.DrainOrderIsPermutation | producer_consumer.py:65-74 | draining returns every item of the content exactly once |
| Buffers.DrainOrderIsSorted | producer_consumer.py:23-29 | draining returns the items in non-decreasing order |
| Buffers.LeastHasMostUrgentPriority | producer_consumer.py:26 | the item a `get` returns has the most urgent priority present, so a LOW item is never returned while a CRITICAL one waits |
| Buffers.UrgentServedFirst | producer_consumer.py:15-20 | when two items of different priorities are both present, the drain returns the more urgent one first, whatever order they were put in |
| Buffers.ThreeLevelsDrainInPriorityOrder | producer_consumer.py:15-20 | LOW, CRITICAL and MEDIUM items present together are returned CRITICAL, MEDIUM, LOW |
| Buffers.SamePriorityServedByIdNotArrival | producer_consumer.py:27 | between two items of one priority, `get` returns the one with the smaller `item_id`, whichever was put first |
| Buffers.CountProduced | producer_consumer.py:60-61 | after an item of value `v`, the count of the level named by `v` goes up by one and every other count stays; an out-of-range value changes nothing |
| Buffers.CountsMatchAppend | producer_consumer.py:59-61 | updating the counts for a produced item keeps them equal to the per-level counts of the produced history |
| Buffers.PriorityCountsPartition | producer_consumer.py:51 | the four per-level counts plus the out-of-range count of a history add up to its length |
| Buffers.PriorityBuffer.constructor | producer_consumer.py:39-51 | a new buffer is empty; `empty_slots` is `max_size` and `filled_slots` is 0; both totals are 0; every level counts 0; the invariant holds |
| Buffers.PriorityBuffer.Produce | producer_consumer.py:53-63 | when a slot is free, one copy of the item is added; `total_produced` rises by 1; the item's level count rises by 1 when the level is valid; `total_consumed` stays; `empty_slots` falls by 1 and `filled_slots` rises by 1; the invariant is kept |
| Buffers.PriorityBuffer.Consume | producer_consumer.py:65-74 | when an item is present, it returns the least item of the content; exactly that one copy is removed and every other item stays; `total_consumed` rises by 1; `total_produced` and the level counts stay; the slot counts move back; the invariant is kept |
| Buffers.PriorityBuffer.GetStats | producer_consumer.py:76-85 | the snapshot reports size, `max_size` and both totals; its size lies between 0 and `max_size` and equals `total_produced - total_consumed`; it has one entry per level name, holding that level's count |
| Buffers.PriorityBuffer.CountsSumToProduced | producer_consumer.py:59-61 | the per-level counts add up to `total_produced` less the items whose priority was out of range, and to `total_produced` exactly when there were none |
| Producers.Generated | producer_consumer.py:103-119 | a run whose counter goes from `lo` up to `hi` creates `hi - lo` items |
| Producers.GeneratedAt | producer_consumer.py:105-112 | the `i`-th generated item has id `lo + i`, the level chosen for it, the data string `Producer-{id}-Item-{lo + i}` and the clock reading taken for it |
| Producers.GeneratedInRange | producer_consumer.py:105-109 | every generated item carries one of the four level values |
| Producers.GeneratedDistinct | producer_consumer.py:110-111 | the ids of generated items strictly increase and no two share a data string |
| Producers.GeneratedKeepsLevelsInRange | producer_consumer.py:105-109 | adding a run's items to a history leaves its count of out-of-range items unchanged, so the statistics keep summing to `total_produced` |
| Producers.ContentsFollowHistory | producer_consumer.py:53-74 | with nothing consumed, the content grows by exactly the items appended to the produced history |
| Producers.Producer.constructor | producer_consumer.py:91-99 | a new producer is running, its counter is 0, and it keeps its id, buffer and quota |
| Producers.Producer.Stop | producer_consumer.py:126-128 | `stop` clears `running` and leaves the counter alone |
| Producers.Producer.PutNext | producer_consumer.py:105-119 | one turn of the loop puts the next generated item into the buffer, advances the counter by one and takes one free slot |
| Producers.Producer.Run | producer_consumer.py:101-124 | a running producer puts the items numbered from its counter up to its quota, in order, and ends with its counter at the quota; a stopped one puts nothing; the buffer's content grows by exactly those items, nothing is consumed, and the invariant is kept |

## Left out

- Threads, the blocking `acquire` and `release` of the two semaphores, and the
  mutex are not modelled. A wait becomes a precondition (`empty_slots > 0`,
  `filled_slots > 0`) and each guarded body runs atomically.
- Buffers.PriorityBuffer.constructor: takes `max_size` as a natural number. A
  negative size makes the semaphore constructor raise `ValueError`, and that
  path is not modelled. With `max_size` 0 no `produce` can ever proceed, which
  the model shows as a precondition nobody meets.
- Producers.Producer.Run: requires a free slot for every item still to come.
  The real loop would block in `produce` until a consumer frees one, and
  consumers running alongside are not modelled. It also takes the level choices
  and the clock readings as sequences instead of calling `random.choice` and
  `time.time()`.
- The random delay `time.sleep(random.uniform(...))` in the loop and
  `delay_range` are left out; they only pace the thread.
- Both `print` calls in the loop are left out, as output only.
- `queue.PriorityQueue` is a heap in a library; only its observable contract
  is kept, that `get` returns a least element. The content is a multiset.
- Timestamps are floats from `time.time()`. They are modelled as integers,
  keeping only their total order, which matters only when priority, id and
  data all tie.
- The `Consumer` thread loop, `run_simulation` and the web adapter `app.py`
  are orchestration, sleeping and printing; they are not part of this model.
- On a plain integer the `item.priority in Priority` test gives a result
  that depends on the Python version. It is modelled as membership of
  {1, 2, 3, 4}.
- Python `str` comparison is modelled as lexicographic order on code points
  (`StrLess`); no Unicode normalisation is involved.
