/** A free time at a centre, and the order of reports (api/availability_snapshot.py). */
module Slots {
  import opened Common
  import opened Calendar
  import opened Sorting

  datatype AvailableSlot = AvailableSlot(centre: string, date: Date, start: Clock, end: Option<Clock>)

  /** What makes two slots the same; when they end does not matter. */
  datatype SlotKey = SlotKey(centre: string, date: Date, start: Clock)

  function KeyOf(s: AvailableSlot): SlotKey { SlotKey(s.centre, s.date, s.start) }

  function KeysOf(xs: seq<AvailableSlot>): set<SlotKey> { set s <- xs :: KeyOf(s) }

  datatype AvailabilityDiff = AvailabilityDiff(
    added: seq<AvailableSlot>,
    removed: seq<AvailableSlot>,
    baselined: seq<string>)
  {
    predicate Changed() { added != [] || removed != [] }
  }

  /** The slot as it is once its seconds are gone, which is all any text keeps. */
  function Truncated(s: AvailableSlot): AvailableSlot {
    s.(start := ToMinute(s.start), end := if s.end.Some? then Some(ToMinute(s.end.value)) else None)
  }

  // ---------------------------------------------------------------------------
  // Order
  // ---------------------------------------------------------------------------

  predicate AllDigits(s: string) { s != "" && forall c <- s :: IsDigit(c) }

  function DecimalValue(s: string): nat
    requires forall c <- s :: IsDigit(c)
  {
    if s == "" then 0
    else
      assert s[|s| - 1] in s && forall c :: c in s[..|s| - 1] ==> c in s;
      10 * DecimalValue(s[..|s| - 1]) + DigitValue(s[|s| - 1])
  }

  /** `_centre_order`: numbers by value, then everything else by spelling. */
  function CentreRank(centre: string): nat {
    if AllDigits(centre) then DecimalValue(centre) else 1_000_000_000
  }

  function CentreSpelling(centre: string): string {
    if AllDigits(centre) then "" else centre
  }

  /** The order of code points. */
  predicate StringLeq(a: string, b: string) {
    a == "" || (b != "" && (a[0] < b[0] || (a[0] == b[0] && StringLeq(a[1..], b[1..]))))
  }

  predicate CentreLeq(a: string, b: string) {
    CentreRank(a) < CentreRank(b)
    || (CentreRank(a) == CentreRank(b) && StringLeq(CentreSpelling(a), CentreSpelling(b)))
  }

  predicate SameRank(a: string, b: string) { CentreLeq(a, b) && CentreLeq(b, a) }

  /** `sort_key` */
  predicate SlotLeq(a: AvailableSlot, b: AvailableSlot) {
    && CentreLeq(a.centre, b.centre)
    && (CentreLeq(b.centre, a.centre) ==>
          Ordinal(a.date) < Ordinal(b.date) || (Ordinal(a.date) == Ordinal(b.date) && a.start <= b.start))
  }

  function SortSlots(xs: seq<AvailableSlot>): seq<AvailableSlot> { Sort(xs, SlotLeq) }

  /** Different centres have different places in the order. "12" beside "012" breaks this. */
  predicate Canonical(centres: set<string>) {
    forall a, b :: a in centres && b in centres && SameRank(a, b) ==> a == b
  }

  function CentresOf(xs: seq<AvailableSlot>): set<string> { set s <- xs :: s.centre }

  lemma {:induction false} StringLeqTotal(a: string, b: string)
    ensures StringLeq(a, b) || StringLeq(b, a)
    ensures StringLeq(a, b) && StringLeq(b, a) ==> a == b
  {
    if a != "" && b != "" {
      StringLeqTotal(a[1..], b[1..]);
      assert a == [a[0]] + a[1..] && b == [b[0]] + b[1..];
    }
  }

  lemma {:induction false} StringLeqTransitive(a: string, b: string, c: string)
    requires StringLeq(a, b) && StringLeq(b, c)
    ensures StringLeq(a, c)
  {
    if a != "" && a[0] == b[0] == c[0] {
      StringLeqTransitive(a[1..], b[1..], c[1..]);
    }
  }

  lemma CentreOrderIsTotal()
    ensures TotalPreorder(CentreLeq)
  {
    forall a, b ensures CentreLeq(a, b) || CentreLeq(b, a) {
      StringLeqTotal(CentreSpelling(a), CentreSpelling(b));
    }
    forall a, b, c | CentreLeq(a, b) && CentreLeq(b, c) ensures CentreLeq(a, c) {
      if CentreRank(a) == CentreRank(b) == CentreRank(c) {
        StringLeqTransitive(CentreSpelling(a), CentreSpelling(b), CentreSpelling(c));
      }
    }
  }

  lemma SlotOrderIsTotal()
    ensures TotalPreorder(SlotLeq)
  {
    CentreOrderIsTotal();
    forall a, b, c | SlotLeq(a, b) && SlotLeq(b, c) ensures SlotLeq(a, c) {
      assert CentreLeq(a.centre, c.centre);
      if CentreLeq(c.centre, a.centre) {
        assert CentreLeq(b.centre, a.centre) && CentreLeq(c.centre, b.centre);
      }
    }
  }

  lemma SlotsAreSorted(xs: seq<AvailableSlot>)
    ensures Sorted(SortSlots(xs), SlotLeq) && CentresOf(SortSlots(xs)) == CentresOf(xs)
    ensures KeysOf(SortSlots(xs)) == KeysOf(xs)
  {
    SlotOrderIsTotal();
    SortSorts(xs, SlotLeq);
    SortMembers(xs, SlotLeq);
  }
}
