/** cogs/SquadQueue.py: the arithmetic of the event schedule and the two staff-edited override lists
    that `schedule_que_event` consumes — forced-format times (a time paired with a format) and Squad
    Queue times (times at which the queue stays closed). Instants are whole seconds since the epoch
    and durations are seconds. */
module Schedule {
  import opened Wrappers
  import opened Common

  type Time = int

  /** `datetime.replace(second=0, microsecond=0)`: the start of the instant's minute. */
  function TruncateToMinute(t: Time): (r: Time)
    ensures r <= t < r + 60 && r % 60 == 0
  {
    t - t % 60
  }

  /** `compute_next_event_open_time` (with the current time) and `compute_first_event_of_date_open_time`
      (with a date): the anchor plus as many whole intervals as have elapsed, `//` being floor
      division. */
  function OpenTimeAtOrBefore(now: Time, anchor: Time, interval: int): Time
    requires interval > 0
  {
    anchor + interval * ((now - anchor) / interval)
  }

  /** The open time is a schedule slot: at most `now`, less than one interval before it, and a whole
      number of intervals from the anchor. */
  lemma OpenTimeAtOrBeforeBounds(now: Time, anchor: Time, interval: int)
    requires interval > 0
    ensures var r := OpenTimeAtOrBefore(now, anchor, interval);
            r <= now < r + interval && (r - anchor) % interval == 0
  {
    var q := (now - anchor) / interval;
    assert now - anchor == interval * q + (now - anchor) % interval;
    DivModUnique(interval * q, interval, q, 0);
  }

  /** `n * a` grows by `n` for each unit of `a`. */
  lemma MulStep(n: int, a: int)
    ensures n * (a + 1) == n * a + n
  {
  }

  /** Multiplying by a positive factor is strictly monotone, by at least the factor per step. */
  lemma {:induction false} MulStrictMono(n: int, a: int, b: int)
    requires n > 0 && a < b
    ensures n * a + n <= n * b
    decreases b - a
  {
    MulStep(n, a);
    if a + 1 < b {
      MulStrictMono(n, a + 1, b);
    }
  }

  /** Euclidean division is determined by the quotient-remainder decomposition. */
  lemma DivModUnique(x: int, n: int, q: int, r: int)
    requires n > 0 && 0 <= r < n && x == n * q + r
    ensures x / n == q && x % n == r
  {
    var q' := x / n;
    var r' := x % n;
    assert x == n * q' + r';
    if q < q' {
      MulStrictMono(n, q, q');
    } else if q' < q {
      MulStrictMono(n, q', q);
    }
  }

  /** Conversely, the slot containing `now` is the only time with those properties. */
  lemma OpenTimeAtOrBeforeUnique(now: Time, anchor: Time, interval: int, t: Time)
    requires interval > 0
    requires t <= now < t + interval && (t - anchor) % interval == 0
    ensures t == OpenTimeAtOrBefore(now, anchor, interval)
  {
    var q := (t - anchor) / interval;
    assert t - anchor == interval * q + (t - anchor) % interval;
    DivModUnique(now - anchor, interval, q, now - t);
  }

  /** An entry of `forced_format_times`: the event's display time and the format forced on it. */
  datatype FormatOverride = FormatOverride(time: Time, format: string)

  /** The override lists are kept in increasing time order, one entry per time. */
  predicate StrictlyIncreasing(l: seq<FormatOverride>)
  {
    forall i, j :: 0 <= i < j < |l| ==> l[i].time < l[j].time
  }

  /** `schedule_forced_format_times` after the past-time check: the new entry goes into a dict keyed
      by time (replacing an entry at the same time) and the values are sorted by time. */
  function InsertOverride(l: seq<FormatOverride>, e: FormatOverride): seq<FormatOverride>
  {
    if l == [] then [e]
    else if e.time < l[0].time then [e] + l
    else if e.time == l[0].time then [e] + l[1..]
    else [l[0]] + InsertOverride(l[1..], e)
  }

  /** The entries after an insertion: the new one and every old one at a different time. */
  lemma {:induction false} InsertOverrideEntries(l: seq<FormatOverride>, e: FormatOverride)
    requires StrictlyIncreasing(l)
    ensures forall x :: x in InsertOverride(l, e) <==> x == e || (x in l && x.time != e.time)
  {
    if l != [] && e.time > l[0].time {
      InsertOverrideEntries(l[1..], e);
      assert l == [l[0]] + l[1..];
    } else if l != [] && e.time == l[0].time {
      assert l == [l[0]] + l[1..];
    }
  }

  /** The inserted entry is in the list afterwards. */
  lemma InsertOverrideHasNew(l: seq<FormatOverride>, e: FormatOverride)
    requires StrictlyIncreasing(l)
    ensures e in InsertOverride(l, e)
  {
    InsertOverrideEntries(l, e);
  }

  /** An entry at a different time survives an insertion. */
  lemma InsertOverrideKeeps(l: seq<FormatOverride>, e: FormatOverride, x: FormatOverride)
    requires StrictlyIncreasing(l) && x in l && x.time != e.time
    ensures x in InsertOverride(l, e)
  {
    InsertOverrideEntries(l, e);
  }

  /** An insertion keeps the list in strictly increasing time order. */
  lemma {:induction false} InsertOverrideSorted(l: seq<FormatOverride>, e: FormatOverride)
    requires StrictlyIncreasing(l)
    ensures StrictlyIncreasing(InsertOverride(l, e))
  {
    if l != [] && e.time > l[0].time {
      InsertOverrideSorted(l[1..], e);
      InsertOverrideEntries(l[1..], e);
      var r := InsertOverride(l, e);
      forall j | 0 < j < |r| ensures r[0].time < r[j].time {
        assert r[j] in InsertOverride(l[1..], e);
      }
    }
  }

  /** Two strictly increasing lists with the same entries start with the same entry. */
  lemma SameEntriesSameHead(a: seq<FormatOverride>, b: seq<FormatOverride>)
    requires StrictlyIncreasing(a) && StrictlyIncreasing(b) && a != [] && b != []
    requires forall x :: x in a <==> x in b
    ensures a[0] == b[0]
  {
    assert a[0] in b && b[0] in a;
    var i :| 0 <= i < |b| && b[i] == a[0];
    var j :| 0 <= j < |a| && a[j] == b[0];
    assert b[0].time <= b[i].time;
    assert a[0].time <= a[j].time;
  }

  /** Dropping the common first entry of two strictly increasing lists with the same entries leaves
      lists with the same entries. */
  lemma SameEntriesTails(a: seq<FormatOverride>, b: seq<FormatOverride>)
    requires StrictlyIncreasing(a) && StrictlyIncreasing(b) && a != [] && b != [] && a[0] == b[0]
    requires forall x :: x in a <==> x in b
    ensures forall x :: x in a[1..] <==> x in b[1..]
  {
    forall x ensures x in a[1..] ==> x in b[1..] {
      if x in a[1..] {
        var k :| 0 <= k < |a[1..]| && a[1..][k] == x;
        assert a[k + 1] == x && a[0].time < a[k + 1].time;
        assert x in b;
        var m :| 0 <= m < |b| && b[m] == x;
        assert m != 0;
        assert b[1..][m - 1] == x;
      }
    }
    forall x ensures x in b[1..] ==> x in a[1..] {
      if x in b[1..] {
        var k :| 0 <= k < |b[1..]| && b[1..][k] == x;
        assert b[k + 1] == x && b[0].time < b[k + 1].time;
        assert x in a;
        var m :| 0 <= m < |a| && a[m] == x;
        assert m != 0;
        assert a[1..][m - 1] == x;
      }
    }
  }

  /** A strictly increasing list is determined by its entries, so the insertion is exactly the sorted
      list of the dict's values. */
  lemma {:induction false} StrictlyIncreasingDeterminedByEntries(a: seq<FormatOverride>, b: seq<FormatOverride>)
    requires StrictlyIncreasing(a) && StrictlyIncreasing(b)
    requires forall x :: x in a <==> x in b
    ensures a == b
    decreases |a|
  {
    assert a != [] ==> a[0] in b;
    assert b != [] ==> b[0] in a;
    if a != [] && b != [] {
      SameEntriesSameHead(a, b);
      SameEntriesTails(a, b);
      StrictlyIncreasingDeterminedByEntries(a[1..], b[1..]);
      assert a == [a[0]] + a[1..] && b == [b[0]] + b[1..];
    }
  }

  /** `remove_forced_format_time`: every entry at the given time is filtered out. */
  function RemoveOverridesAt(l: seq<FormatOverride>, t: Time): (r: seq<FormatOverride>)
    ensures |r| <= |l|
  {
    if l == [] then []
    else (if l[0].time == t then [] else [l[0]]) + RemoveOverridesAt(l[1..], t)
  }

  /** The removal keeps exactly the entries at other times. */
  lemma {:induction false} RemoveOverridesAtEntries(l: seq<FormatOverride>, t: Time)
    ensures forall x :: x in RemoveOverridesAt(l, t) <==> x in l && x.time != t
  {
    if l != [] {
      RemoveOverridesAtEntries(l[1..], t);
      assert l == [l[0]] + l[1..];
    }
  }

  /** The list shrinks exactly when some entry matched; otherwise the command reports
      "No entry found". */
  lemma {:induction false} RemoveOverridesAtShrinks(l: seq<FormatOverride>, t: Time)
    ensures |RemoveOverridesAt(l, t)| < |l| <==> exists i :: 0 <= i < |l| && l[i].time == t
  {
    if l != [] {
      RemoveOverridesAtShrinks(l[1..], t);
      if exists i :: 0 <= i < |l[1..]| && l[1..][i].time == t {
        var i :| 0 <= i < |l[1..]| && l[1..][i].time == t;
        assert l[i + 1].time == t;
      }
      if exists i :: 0 <= i < |l| && l[i].time == t {
        var i :| 0 <= i < |l| && l[i].time == t;
        if i > 0 {
          assert l[1..][i - 1].time == t;
        }
      }
    }
  }

  /** The removal keeps the list strictly increasing. */
  lemma {:induction false} RemoveOverridesAtSorted(l: seq<FormatOverride>, t: Time)
    requires StrictlyIncreasing(l)
    ensures StrictlyIncreasing(RemoveOverridesAt(l, t))
  {
    if l != [] {
      RemoveOverridesAtSorted(l[1..], t);
      if l[0].time != t {
        RemoveOverridesAtEntries(l[1..], t);
        var r := RemoveOverridesAt(l, t);
        forall j | 0 < j < |r| ensures r[0].time < r[j].time {
          assert r[j] in RemoveOverridesAt(l[1..], t);
          var k :| 0 <= k < |l[1..]| && l[1..][k] == r[j];
          assert l[k + 1] == r[j];
        }
      }
    }
  }

  /** `sq_times` is kept in strictly increasing order. */
  predicate TimesIncreasing(l: seq<Time>)
  {
    forall i, j :: 0 <= i < j < |l| ==> l[i] < l[j]
  }

  /** `schedule_sq_times` after the past-time check: append, drop duplicates through a set, sort. */
  function InsertTime(l: seq<Time>, t: Time): seq<Time>
  {
    if l == [] then [t]
    else if t < l[0] then [t] + l
    else if t == l[0] then l
    else [l[0]] + InsertTime(l[1..], t)
  }

  /** The times after an insertion are the old ones plus the new one, still strictly increasing. */
  lemma {:induction false} InsertTimeSpec(l: seq<Time>, t: Time)
    requires TimesIncreasing(l)
    ensures forall x :: x in InsertTime(l, t) <==> x == t || x in l
    ensures TimesIncreasing(InsertTime(l, t))
  {
    if l != [] && t > l[0] {
      InsertTimeSpec(l[1..], t);
      assert l == [l[0]] + l[1..];
      var r := InsertTime(l, t);
      forall j | 0 < j < |r| ensures r[0] < r[j] {
        assert r[j] in InsertTime(l[1..], t);
      }
    }
  }

  /** `remove_sq_time` for a listed time: `list.remove` takes exactly that time out. */
  lemma RemoveTimeMembers(l: seq<Time>, t: Time)
    requires TimesIncreasing(l) && t in l
    ensures forall x :: x in RemoveFirst(l, t) <==> x in l && x != t
  {
    var i :| 0 <= i < |l| && l[i] == t;
    RemoveFirstAt(l, t, i);
    forall x ensures x in l[..i] + l[i + 1..] <==> x in l && x != t {
      CutOutMember(l, i, x);
    }
  }

  /** Cutting the element at `i` out of a strictly increasing list removes exactly that value. */
  lemma CutOutMember(l: seq<Time>, i: nat, x: Time)
    requires TimesIncreasing(l) && i < |l|
    ensures x in l[..i] + l[i + 1..] <==> x in l && x != l[i]
  {
    var r := l[..i] + l[i + 1..];
    if x in r {
      var k :| 0 <= k < |r| && r[k] == x;
      if k < i {
        assert r[k] == l[k];
      } else {
        assert r[k] == l[k + 1];
      }
    }
    if x in l && x != l[i] {
      var j :| 0 <= j < |l| && l[j] == x;
      if j < i {
        assert r[j] == x;
      } else {
        assert r[j - 1] == x;
      }
    }
  }

  /** Removing a listed time shortens the list by one and leaves the rest in order. */
  lemma RemoveTimeSorted(l: seq<Time>, t: Time)
    requires TimesIncreasing(l) && t in l
    ensures |RemoveFirst(l, t)| == |l| - 1
    ensures TimesIncreasing(RemoveFirst(l, t))
  {
    var i :| 0 <= i < |l| && l[i] == t;
    RemoveFirstAt(l, t, i);
    CutOutIncreasing(l, i);
  }

  /** Cutting one element out of a strictly increasing list leaves it strictly increasing. */
  lemma CutOutIncreasing(l: seq<Time>, i: nat)
    requires TimesIncreasing(l) && i < |l|
    ensures TimesIncreasing(l[..i] + l[i + 1..])
  {
    var r := l[..i] + l[i + 1..];
    forall a, b | 0 <= a < b < |r| ensures r[a] < r[b] {
      if b < i {
        assert r[a] == l[a] && r[b] == l[b];
      } else if a < i {
        assert r[a] == l[a] && r[b] == l[b + 1];
      } else {
        assert r[a] == l[a + 1] && r[b] == l[b + 1];
      }
    }
  }

  /** In a strictly increasing list, `list.remove` cuts the element out at its position. */
  lemma {:induction false} RemoveFirstAt(l: seq<Time>, t: Time, i: nat)
    requires TimesIncreasing(l) && i < |l| && l[i] == t
    ensures RemoveFirst(l, t) == l[..i] + l[i + 1..]
  {
    if i > 0 {
      RemoveFirstAt(l[1..], t, i - 1);
      assert l[1..][..i - 1] + l[1..][i..] == l[1..i] + l[i + 1..];
      assert l[..i] == [l[0]] + l[1..i];
    }
  }

  /** What `autoschedule_forced_format_times` works from: the first forced-format slot not in the
      past and its index, the configured format order and its offset, the gap between forced-format
      events (`QUEUES_BETWEEN_FORCED_FORMAT_QUEUE` queue intervals), the joining time and the display
      offset. */
  datatype AutoschedulePlan = AutoschedulePlan(last: Time, startIndex: nat, order: seq<string>, orderOffset: int,
                                               between: int, joining: int, displayOffset: int)

  /** The `i`-th event added: `i` gaps after the slot, shifted to its display time, with the format
      `i` places further along the cyclic order (Python's `%` is never negative for a positive
      modulus, like Dafny's). */
  function AutoscheduleEntry(p: AutoschedulePlan, i: nat): FormatOverride
    requires |p.order| > 0
  {
    FormatOverride(p.last + i * p.between + p.joining + p.displayOffset,
                   p.order[(p.startIndex + i + p.orderOffset) % |p.order|])
  }

  /** The formats of the autoscheduled events cycle through the configured order, and consecutive
      events are `between` apart. */
  lemma AutoscheduleEntryCycles(p: AutoschedulePlan, i: nat)
    requires |p.order| > 0
    ensures AutoscheduleEntry(p, i + |p.order|).format == AutoscheduleEntry(p, i).format
    ensures AutoscheduleEntry(p, i + 1).time == AutoscheduleEntry(p, i).time + p.between
  {
    ModShift(p.startIndex + i + p.orderOffset, |p.order|);
    MulStep(p.between, i);
  }

  lemma ModShift(a: int, n: int)
    requires n > 0
    ensures (a + n) % n == a % n
  {
    var q := a / n;
    assert a == n * q + a % n;
    MulStep(n, q);
    DivModUnique(a + n, n, q + 1, a % n);
  }

  /** The loop of `autoschedule_forced_format_times` that advances the first slot past `now`: the
      count of gaps needed, `ceil((now - first) / between)`, or none when `first` is not in the past. */
  function SlotsUntil(first: Time, between: int, now: Time): nat
    requires between > 0
  {
    if now <= first then 0 else (now - first + between - 1) / between
  }

  /** The first slot at or after `now` is `SlotsUntil` gaps past `first`, and one gap fewer would
      still be in the past. */
  lemma SlotsUntilIsFirstSlot(first: Time, between: int, now: Time)
    requires between > 0
    ensures var c := SlotsUntil(first, between, now);
            now <= first + c * between && (c > 0 ==> first + (c - 1) * between < now)
  {
    if now > first {
      var x := now - first + between - 1;
      var c := x / between;
      assert x == between * c + x % between;
      MulStep(between, c - 1);
    }
  }

  /** The slot reached by the loop is the unique one with those properties. */
  lemma SlotsUntilUnique(first: Time, between: int, now: Time, c: nat)
    requires between > 0
    requires now <= first + c * between && (c > 0 ==> first + (c - 1) * between < now)
    ensures c == SlotsUntil(first, between, now)
  {
    var d := SlotsUntil(first, between, now);
    SlotsUntilIsFirstSlot(first, between, now);
    if c < d {
      if c < d - 1 {
        MulStrictMono(between, c, d - 1);
      }
    } else if d < c {
      if d < c - 1 {
        MulStrictMono(between, d, c - 1);
      }
    }
  }

  /** The `while last_event < now` loop: count the gaps until the slot is no longer in the past. */
  method FirstSlotNotBefore(first: Time, between: int, now: Time) returns (last: Time, startIndex: nat)
    requires between > 0
    ensures startIndex == SlotsUntil(first, between, now)
    ensures last == first + startIndex * between
  {
    last := first;
    startIndex := 0;
    while last < now
      invariant last == first + startIndex * between
      invariant startIndex > 0 ==> first + (startIndex - 1) * between < now
      decreases now - last
    {
      last := last + between;
      startIndex := startIndex + 1;
    }
    SlotsUntilUnique(first, between, now, startIndex);
  }

  /** The `while last_event < now` loop as written, for any gap, run for at most `fuel` steps: the
      number of steps after which it stops, or None while it is still running. */
  function StepsUntilNotBefore(last: Time, between: int, now: Time, fuel: nat): Option<nat>
    decreases fuel
  {
    if now <= last then Some(0)
    else if fuel == 0 then None
    else match StepsUntilNotBefore(last + between, between, now, fuel - 1)
      case Some(n) => Some(n + 1)
      case None => None
  }

  /** A gap that is not positive (a negative `QUEUES_BETWEEN_FORCED_FORMAT_QUEUE`, which the config
      check lets through and the truthiness guards do not stop) with a rotation anchored in the past:
      no number of steps ends the loop. */
  lemma {:induction false} NonPositiveGapNeverStops(last: Time, between: int, now: Time, fuel: nat)
    requires between <= 0 && last < now
    ensures StepsUntilNotBefore(last, between, now, fuel) == None
    decreases fuel
  {
    if fuel > 0 {
      NonPositiveGapNeverStops(last + between, between, now, fuel - 1);
    }
  }

  /** With a positive gap and enough steps the loop as written stops after `SlotsUntil` steps, the
      count `FirstSlotNotBefore` returns. */
  lemma {:induction false} PositiveGapStopsAtFirstSlot(first: Time, between: int, now: Time, fuel: nat)
    requires between > 0 && fuel >= SlotsUntil(first, between, now)
    ensures StepsUntilNotBefore(first, between, now, fuel) == Some(SlotsUntil(first, between, now))
    decreases fuel
  {
    var c := SlotsUntil(first, between, now);
    SlotsUntilIsFirstSlot(first, between, now);
    if first < now {
      assert c > 0;
      MulStep(between, c - 1);
      SlotsUntilUnique(first + between, between, now, c - 1);
      PositiveGapStopsAtFirstSlot(first + between, between, now, fuel - 1);
    }
  }

  /** The dict of `autoschedule_forced_format_times` after its first `n` updates, as a sorted list. */
  function Autoschedule(l: seq<FormatOverride>, p: AutoschedulePlan, n: nat): seq<FormatOverride>
    requires |p.order| > 0
  {
    if n == 0 then l else InsertOverride(Autoschedule(l, p, n - 1), AutoscheduleEntry(p, n - 1))
  }

  /** Autoscheduling keeps the list sorted. */
  lemma {:induction false} AutoscheduleSorted(l: seq<FormatOverride>, p: AutoschedulePlan, n: nat)
    requires |p.order| > 0 && StrictlyIncreasing(l)
    ensures StrictlyIncreasing(Autoschedule(l, p, n))
  {
    if n > 0 {
      AutoscheduleSorted(l, p, n - 1);
      InsertOverrideSorted(Autoschedule(l, p, n - 1), AutoscheduleEntry(p, n - 1));
    }
  }

  /** Later autoscheduled events come strictly later. */
  lemma AutoscheduleTimesIncrease(p: AutoschedulePlan, i: nat, j: nat)
    requires |p.order| > 0 && p.between > 0 && i < j
    ensures AutoscheduleEntry(p, i).time < AutoscheduleEntry(p, j).time
  {
    MulStrictMono(p.between, i, j);
  }

  /** The autoscheduled events are `between` apart, so none overwrites another: all of them end up in
      the list. */
  lemma {:induction false} AutoscheduleHoldsNewEvents(l: seq<FormatOverride>, p: AutoschedulePlan, n: nat, i: nat)
    requires |p.order| > 0 && p.between > 0 && StrictlyIncreasing(l)
    requires i < n
    ensures AutoscheduleEntry(p, i) in Autoschedule(l, p, n)
  {
    var prev := Autoschedule(l, p, n - 1);
    var e := AutoscheduleEntry(p, n - 1);
    AutoscheduleSorted(l, p, n - 1);
    if i < n - 1 {
      AutoscheduleHoldsNewEvents(l, p, n - 1, i);
      AutoscheduleTimesIncrease(p, i, n - 1);
      InsertOverrideKeeps(prev, e, AutoscheduleEntry(p, i));
    } else {
      InsertOverrideHasNew(prev, e);
    }
  }

  /** Every old entry at a time none of the new events takes survives autoscheduling. */
  lemma {:induction false} AutoscheduleKeepsOtherEntries(l: seq<FormatOverride>, p: AutoschedulePlan, n: nat,
                                                         x: FormatOverride)
    requires |p.order| > 0 && StrictlyIncreasing(l)
    requires x in l
    requires forall i :: 0 <= i < n ==> AutoscheduleEntry(p, i).time != x.time
    ensures x in Autoschedule(l, p, n)
  {
    if n > 0 {
      AutoscheduleKeepsOtherEntries(l, p, n - 1, x);
      AutoscheduleSorted(l, p, n - 1);
      InsertOverrideKeeps(Autoschedule(l, p, n - 1), AutoscheduleEntry(p, n - 1), x);
    }
  }

  /** Whether `x` is one of the first `n` autoscheduled events. */
  predicate IsNewEvent(p: AutoschedulePlan, n: nat, x: FormatOverride)
    requires |p.order| > 0
  {
    exists i :: 0 <= i < n && x == AutoscheduleEntry(p, i)
  }

  /** Whether none of the first `n` autoscheduled events is at time `t`. */
  predicate TimeUnused(p: AutoschedulePlan, n: nat, t: Time)
    requires |p.order| > 0
  {
    forall i :: 0 <= i < n ==> AutoscheduleEntry(p, i).time != t
  }

  /** After autoscheduling, an entry is in the list exactly when it is one of the new events, or an
      old entry at a time none of the new events takes. */
  lemma {:induction false} AutoscheduleEntries(l: seq<FormatOverride>, p: AutoschedulePlan, n: nat, x: FormatOverride)
    requires |p.order| > 0 && p.between > 0 && StrictlyIncreasing(l)
    ensures x in Autoschedule(l, p, n) <==> IsNewEvent(p, n, x) || (x in l && TimeUnused(p, n, x.time))
  {
    if n > 0 {
      var prev := Autoschedule(l, p, n - 1);
      var e := AutoscheduleEntry(p, n - 1);
      AutoscheduleEntries(l, p, n - 1, x);
      AutoscheduleSorted(l, p, n - 1);
      InsertOverrideEntries(prev, e);
      assert IsNewEvent(p, n, x) <==> IsNewEvent(p, n - 1, x) || x == e;
      assert TimeUnused(p, n, x.time) <==> TimeUnused(p, n - 1, x.time) && e.time != x.time;
      if IsNewEvent(p, n - 1, x) {
        var i :| 0 <= i < n - 1 && x == AutoscheduleEntry(p, i);
        AutoscheduleTimesIncrease(p, i, n - 1);
      }
    }
  }
}
