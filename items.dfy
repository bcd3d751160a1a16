/** The values that travel through the buffer: the four priority levels,
    the items themselves, and the order in which the buffer serves them.
    A `PriorityItem` is a dataclass declared with `order=True`, so two items
    compare as the tuples (priority, item_id, data, timestamp) do. */
module Items {

  datatype Option<T> = None | Some(value: T)

  /** The four priority levels. A lower value is served first. */
  datatype Priority = Critical | High | Medium | Low {

    /** The integer value of the level: CRITICAL is 1 and LOW is 4. */
    function Value(): (v: int)
      ensures 1 <= v <= 4
      ensures v == 1 <==> this == Critical
      ensures v == 4 <==> this == Low
    {
      match this
      case Critical => 1
      case High => 2
      case Medium => 3
      case Low => 4
    }

    /** The member name, which keys the per-priority statistics. */
    function Name(): (s: string)
      ensures |s| >= 3
    {
      match this
      case Critical => "CRITICAL"
      case High => "HIGH"
      case Medium => "MEDIUM"
      case Low => "LOW"
    }
  }

  /** The level whose value is `v`, if there is one: the test
      `item.priority in Priority` followed by `Priority(item.priority)`. */
  function PriorityOf(v: int): (r: Option<Priority>)
    ensures r.Some? <==> 1 <= v <= 4
  {
    if v == 1 then Some(Critical)
    else if v == 2 then Some(High)
    else if v == 3 then Some(Medium)
    else if v == 4 then Some(Low)
    else None
  }

  /** `PriorityOf` inverts `Value` on both sides. */
  lemma PriorityOfInvertsValue(p: Priority, v: int)
    ensures PriorityOf(p.Value()) == Some(p)
    ensures PriorityOf(v) == Some(p) ==> p.Value() == v
  {
  }

  /** Distinct levels have distinct names, so the statistics keyed by name
      lose nothing. */
  lemma NamesDistinct(p: Priority, q: Priority)
    ensures p.Name() == q.Name() <==> p == q
  {
  }

  /** One unit of work. The clock reading `timestamp` is kept as an opaque,
      totally ordered integer. */
  datatype PriorityItem = PriorityItem(priority: int, itemId: int, data: string, timestamp: int)

  /** Lexicographic order on strings by code point, as Python compares `str`:
      a proper prefix comes first. */
  predicate StrLess(a: string, b: string)
    decreases |a|
  {
    if |a| == 0 then |b| > 0
    else if |b| == 0 then false
    else if a[0] != b[0] then a[0] < b[0]
    else StrLess(a[1..], b[1..])
  }

  lemma {:induction false} StrLessIrreflexive(a: string)
    ensures !StrLess(a, a)
    decreases |a|
  {
    if |a| > 0 {
      StrLessIrreflexive(a[1..]);
    }
  }

  lemma {:induction false} StrLessTransitive(a: string, b: string, c: string)
    requires StrLess(a, b) && StrLess(b, c)
    ensures StrLess(a, c)
    decreases |a|
  {
    if |a| > 0 && a[0] == b[0] && b[0] == c[0] {
      StrLessTransitive(a[1..], b[1..], c[1..]);
    }
  }

  /** Two different strings are always ordered one way, and never both ways. */
  lemma {:induction false} StrLessTotal(a: string, b: string)
    ensures a != b <==> (StrLess(a, b) || StrLess(b, a))
    ensures !(StrLess(a, b) && StrLess(b, a))
    decreases |a|
  {
    if |a| == 0 || |b| == 0 {
    } else if a[0] != b[0] {
    } else {
      StrLessTotal(a[1..], b[1..]);
      if a != b {
        assert a == [a[0]] + a[1..] && b == [b[0]] + b[1..];
      } else {
        StrLessIrreflexive(a);
      }
    }
  }

  /** `a < b` on items: the tuples (priority, item_id, data, timestamp)
      compared left to right. */
  predicate ItemLess(a: PriorityItem, b: PriorityItem) {
    a.priority < b.priority
    || (a.priority == b.priority
        && (a.itemId < b.itemId
            || (a.itemId == b.itemId
                && (StrLess(a.data, b.data)
                    || (a.data == b.data && a.timestamp < b.timestamp)))))
  }

  /** `a <= b` on items. */
  predicate ItemLe(a: PriorityItem, b: PriorityItem) {
    a == b || ItemLess(a, b)
  }

  lemma ItemLessIrreflexive(a: PriorityItem)
    ensures !ItemLess(a, a)
  {
    StrLessIrreflexive(a.data);
  }

  lemma ItemLessTransitive(a: PriorityItem, b: PriorityItem, c: PriorityItem)
    requires ItemLess(a, b) && ItemLess(b, c)
    ensures ItemLess(a, c)
  {
    if a.priority == b.priority == c.priority && a.itemId == b.itemId == c.itemId {
      if StrLess(a.data, b.data) && StrLess(b.data, c.data) {
        StrLessTransitive(a.data, b.data, c.data);
      }
    }
  }

  /** The item order is total: any two items are equal or ordered one way,
      and never both ways. */
  lemma ItemLessTotal(a: PriorityItem, b: PriorityItem)
    ensures a != b <==> (ItemLess(a, b) || ItemLess(b, a))
    ensures !(ItemLess(a, b) && ItemLess(b, a))
  {
    StrLessTotal(a.data, b.data);
    StrLessIrreflexive(a.data);
  }

  lemma ItemLeTransitive(a: PriorityItem, b: PriorityItem, c: PriorityItem)
    requires ItemLe(a, b) && ItemLe(b, c)
    ensures ItemLe(a, c)
  {
    if a != b && b != c {
      ItemLessTransitive(a, b, c);
    }
  }

  lemma ItemLeAntisymmetric(a: PriorityItem, b: PriorityItem)
    requires ItemLe(a, b) && ItemLe(b, a)
    ensures a == b
  {
    ItemLessTotal(a, b);
  }

  /** Priority dominates every other field: a strictly more urgent item
      is strictly smaller, whatever its id, data or timestamp. */
  lemma PriorityDominates(a: PriorityItem, b: PriorityItem)
    ensures a.priority < b.priority ==> ItemLess(a, b) && !ItemLe(b, a)
    ensures ItemLe(a, b) ==> a.priority <= b.priority
  {
  }

  // Decimal rendering of integers, as an f-string renders an `int`.

  function DigitChar(d: int): (c: char)
    requires 0 <= d < 10
    ensures '0' <= c <= '9' && c as int - '0' as int == d
  {
    ('0' as int + d) as char
  }

  predicate IsDigits(s: string) {
    forall i :: 0 <= i < |s| ==> '0' <= s[i] <= '9'
  }

  /** The decimal digits of `n`, most significant first, without leading zeros. */
  function NatToDecimal(n: nat): (s: string)
    ensures |s| >= 1
    decreases n
  {
    if n < 10 then [DigitChar(n)] else NatToDecimal(n / 10) + [DigitChar(n % 10)]
  }

  /** The rendering is all digits, with no leading zero. */
  lemma {:induction false} NatToDecimalDigits(n: nat)
    ensures IsDigits(NatToDecimal(n))
    ensures |NatToDecimal(n)| > 1 ==> NatToDecimal(n)[0] != '0'
    decreases n
  {
    if n >= 10 {
      NatToDecimalDigits(n / 10);
    }
  }

  /** `str(n)` of a Python `int`: a minus sign before the digits when negative. */
  function IntToDecimal(n: int): (s: string)
    ensures |s| >= 1
  {
    if n < 0 then "-" + NatToDecimal(-n) else NatToDecimal(n)
  }

  /** The number a string of decimal digits denotes: the inverse of `NatToDecimal`. */
  function DecimalValue(s: string): (n: nat)
    requires IsDigits(s)
    decreases |s|
  {
    if s == [] then 0
    else DecimalValue(s[..|s| - 1]) * 10 + (s[|s| - 1] as int - '0' as int)
  }

  /** The number a rendering with an optional leading minus sign denotes. */
  function IntValue(s: string): int
    requires |s| >= 1
    requires IsDigits(if s[0] == '-' then s[1..] else s)
  {
    if s[0] == '-' then -(DecimalValue(s[1..]) as int) else DecimalValue(s)
  }

  lemma {:induction false} NatDecimalRoundTrip(n: nat)
    ensures IsDigits(NatToDecimal(n)) && DecimalValue(NatToDecimal(n)) == n
    decreases n
  {
    var s := NatToDecimal(n);
    NatToDecimalDigits(n);
    if n >= 10 {
      NatDecimalRoundTrip(n / 10);
      assert s[..|s| - 1] == NatToDecimal(n / 10);
    }
  }

  lemma IntDecimalRoundTrip(n: int)
    ensures IsDigits(if IntToDecimal(n)[0] == '-' then IntToDecimal(n)[1..] else IntToDecimal(n))
    ensures IntValue(IntToDecimal(n)) == n
  {
    var s := IntToDecimal(n);
    if n < 0 {
      assert s[1..] == NatToDecimal(-n);
      NatDecimalRoundTrip(-n);
    } else {
      NatDecimalRoundTrip(n);
    }
  }

  /** The data string of the `k`-th item of a producer: "Producer-{id}-Item-{k}". */
  function ItemData(producerId: int, k: nat): string
  {
    "Producer-" + IntToDecimal(producerId) + "-Item-" + NatToDecimal(k)
  }

  /** One producer never gives two of its items the same data string. */
  lemma ItemDataInjective(producerId: int, k1: nat, k2: nat)
    requires ItemData(producerId, k1) == ItemData(producerId, k2)
    ensures k1 == k2
  {
    var prefix := "Producer-" + IntToDecimal(producerId) + "-Item-";
    var s1, s2 := ItemData(producerId, k1), ItemData(producerId, k2);
    assert s1[|prefix|..] == NatToDecimal(k1);
    assert s2[|prefix|..] == NatToDecimal(k2);
    NatDecimalRoundTrip(k1);
    NatDecimalRoundTrip(k2);
  }
}
