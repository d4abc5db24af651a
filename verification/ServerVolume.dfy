/** Traffic per second, minute and hour in ring buffers, and per day and month in histories. */
module ServerVolume {
  import opened Common
  import opened Numbers

  /** Bytes recorded at a time, in seconds since the epoch. */
  datatype Entry = Entry(at: nat, bytes: nat)

  datatype Date = Date(year: int, month: nat, day: nat)

  /** The bytes recorded in one unit of time, a unit being so many seconds. */
  function Recorded(log: seq<Entry>, width: nat, unit: nat): nat
    requires width > 0
  {
    if log == [] then 0
    else
      var e := log[|log| - 1];
      Recorded(log[..|log| - 1], width, unit) + if e.at / width == unit then e.bytes else 0
  }

  function TotalOf(log: seq<Entry>): nat {
    if log == [] then 0 else TotalOf(log[..|log| - 1]) + log[|log| - 1].bytes
  }

  /** Nothing is recorded later than the current time. */
  predicate UpTo(log: seq<Entry>, now: nat) {
    forall i :: 0 <= i < |log| ==> log[i].at <= now
  }

  lemma {:induction false} NothingLater(log: seq<Entry>, now: nat, width: nat, unit: nat)
    requires width > 0 && UpTo(log, now) && now / width < unit
    ensures Recorded(log, width, unit) == 0
  {
    if log != [] {
      NothingLater(log[..|log| - 1], now, width, unit);
      DivideMonotone(log[|log| - 1].at, now, width);
    }
  }

  // ---- Rings ----

  /** The ring holds the last units up to the current one, each in the slot of its remainder. */
  ghost predicate Holds(ring: seq<nat>, current: nat, log: seq<Entry>, width: nat)
    requires width > 0 && |ring| > 0
  {
    forall u: nat :: u <= current < u + |ring| ==> ring[u % |ring|] == Recorded(log, width, u)
  }

  predicate AllZero(ring: seq<nat>) {
    forall i :: 0 <= i < |ring| ==> ring[i] == 0
  }

  lemma EmptyRingHolds(ring: seq<nat>, current: nat, width: nat)
    requires width > 0 && |ring| > 0 && AllZero(ring)
    ensures Holds(ring, current, [], width)
  {
  }

  /** Two different units of one window have different slots. */
  lemma SlotsDiffer(u: nat, v: nat, n: nat)
    requires n > 0 && u < v < u + n
    ensures u % n != v % n
  {
    var p, q := u / n, v / n;
    assert u == n * p + u % n && v == n * q + v % n;
    MultipleSize(n, q - p);
    assert v - u == n * (q - p) + (v % n - u % n);
  }

  lemma RingCleared(ring: seq<nat>, now: nat, log: seq<Entry>, width: nat, before: nat)
    requires width > 0 && |ring| > 0 && AllZero(ring) && before + |ring| <= now
    requires forall u: nat :: before < u ==> Recorded(log, width, u) == 0
    ensures Holds(ring, now, log, width)
  {
  }

  /** Entering the next unit clears its slot. */
  lemma RingStep(ring: seq<nat>, current: nat, log: seq<Entry>, width: nat)
    requires width > 0 && |ring| > 0 && Holds(ring, current, log, width) && Recorded(log, width, current + 1) == 0
    ensures Holds(ring[(current + 1) % |ring| := 0], current + 1, log, width)
  {
    var n := |ring|;
    forall u: nat | u <= current + 1 < u + n
      ensures ring[(current + 1) % n := 0][u % n] == Recorded(log, width, u)
    {
      if u < current + 1 {
        SlotsDiffer(u, current + 1, n);
      }
    }
  }

  function Plus(ring: seq<nat>, slot: nat, bytes: nat): (r: seq<nat>)
    requires slot < |ring|
    ensures |r| == |ring|
  {
    ring[slot := ring[slot] + bytes]
  }

  lemma RingAdd(ring: seq<nat>, current: nat, log: seq<Entry>, width: nat, e: Entry)
    requires width > 0 && |ring| > 0 && Holds(ring, current, log, width) && e.at / width == current
    ensures Holds(Plus(ring, current % |ring|, e.bytes), current, log + [e], width)
  {
    var n := |ring|;
    assert (log + [e])[..|log|] == log;
    forall u: nat | u <= current < u + n
      ensures Plus(ring, current % n, e.bytes)[u % n] == Recorded(log + [e], width, u)
    {
      if u < current {
        SlotsDiffer(u, current, n);
      }
    }
  }

  /** Clears the slots of the units entered since. */
  method Advance(ring: array<nat>, before: nat, now: nat)
    requires ring.Length > 0 && before <= now
    modifies ring
    ensures ring[..] == Advanced(old(ring[..]), before, now)
  {
    var n := ring.Length;
    var elapsed := now - before;
    if elapsed >= n {
      for i := 0 to n
        invariant forall j :: 0 <= j < i ==> ring[j] == 0
      {
        ring[i] := 0;
      }
    } else {
      for s := 1 to elapsed + 1
        invariant ring[..] == Cleared(old(ring[..]), before, s - 1)
      {
        ring[(before + s) % n] := 0;
      }
    }
  }

  function Cleared(ring: seq<nat>, before: nat, count: nat): (r: seq<nat>)
    requires |ring| > 0
    ensures |r| == |ring|
  {
    if count == 0 then ring else Cleared(ring, before, count - 1)[(before + count) % |ring| := 0]
  }

  function Advanced(ring: seq<nat>, before: nat, now: nat): (r: seq<nat>)
    requires |ring| > 0 && before <= now
    ensures |r| == |ring|
  {
    if now - before >= |ring| then seq(|ring|, _ => 0) else Cleared(ring, before, now - before)
  }

  lemma {:induction false} ClearedHolds(ring: seq<nat>, before: nat, count: nat, log: seq<Entry>, width: nat)
    requires width > 0 && |ring| > 0 && Holds(ring, before, log, width)
    requires forall u: nat :: before < u ==> Recorded(log, width, u) == 0
    ensures Holds(Cleared(ring, before, count), before + count, log, width)
  {
    hide Holds, Recorded;
    if count > 0 {
      ClearedHolds(ring, before, count - 1, log, width);
      RingStep(Cleared(ring, before, count - 1), before + count - 1, log, width);
    }
  }

  /** Time passing keeps every unit of the window in its slot, over any number of wrap-arounds. */
  lemma AdvancedHolds(ring: seq<nat>, before: nat, now: nat, log: seq<Entry>, width: nat, last: nat)
    requires width > 0 && |ring| > 0 && Holds(ring, before, log, width) && before <= now
    requires UpTo(log, last) && before == last / width
    ensures Holds(Advanced(ring, before, now), now, log, width)
  {
    forall u: nat | before < u
      ensures Recorded(log, width, u) == 0
    {
      NothingLater(log, last, width, u);
    }
    if now - before >= |ring| {
      RingCleared(seq(|ring|, _ => 0), now, log, width, before);
    } else {
      ClearedHolds(ring, before, now - before, log, width);
    }
  }

  // ---- Histories ----

  function DaySum(history: seq<(Date, nat)>): nat {
    if history == [] then 0 else DaySum(history[..|history| - 1]) + history[|history| - 1].1
  }

  /** The quota month ends on its start day, or on the first of a month for days some months lack. */
  predicate MonthEnds(last: Date, today: Date, quotaStart: nat) {
    today.day == quotaStart || (quotaStart > 28 && today.day == 1 && last.month != today.month)
  }

  /**
   * A quota month that starts on a day every month has ends on that day and no other; one that starts
   * on the 29th or later ends with every calendar month, and on its day as well where there is one.
   */
  lemma QuotaMonth(last: Date, today: Date, quotaStart: nat)
    ensures quotaStart <= 28 ==> (MonthEnds(last, today, quotaStart) <==> today.day == quotaStart)
    ensures quotaStart > 28 ==>
              (MonthEnds(last, today, quotaStart) <==> today.day == quotaStart || (today.day == 1 && last.month != today.month))
  {
  }

  /** So in a month of 31 days one that starts on the 31st ends on two days in a row. */
  lemma QuotaEndsTwice(year: int)
    ensures MonthEnds(Date(year, 1, 30), Date(year, 1, 31), 31) && MonthEnds(Date(year, 1, 31), Date(year, 2, 1), 31)
  {
  }

  /** Articles that arrived and failed, day by day. */
  function ArticleSum(history: seq<(Date, nat, nat)>): (nat, nat) {
    if history == [] then (0, 0)
    else
      var sum, last := ArticleSum(history[..|history| - 1]), history[|history| - 1];
      (sum.0 + last.1, sum.1 + last.2)
  }

  class Volume {
    const seconds: array<nat>
    const minutes: array<nat>
    const hours: array<nat>
    var bytesToday: nat
    var bytesThisMonth: nat
    var daily: seq<(Date, nat)>
    var monthly: seq<(Date, nat)>
    var last: Option<nat>

    var arrived: nat
    var failed: nat
    var articles: seq<(Date, nat, nat)>

    /** Everything recorded so far: bytes, and articles that arrived and failed. */
    ghost var log: seq<Entry>
    ghost var outcomes: (nat, nat)

    ghost predicate Shape()
      reads this
    {
      && seconds.Length == 60 && minutes.Length == 60 && hours.Length == 24
      && seconds != minutes && minutes != hours && seconds != hours
    }

    /** Each of the last 60 seconds, 60 minutes and 24 hours holds exactly what was recorded in it. */
    ghost predicate RingsHold()
      requires Shape()
      reads this, seconds, minutes, hours
    {
      match last
      case None => log == [] && AllZero(seconds[..]) && AllZero(minutes[..]) && AllZero(hours[..])
      case Some(now) =>
        && UpTo(log, now)
        && Holds(seconds[..], now, log, 1)
        && Holds(minutes[..], now / 60, log, 60)
        && Holds(hours[..], now / 3600, log, 3600)
    }

    /** Days and months each add up to everything recorded, and so do the days of articles. */
    ghost predicate HistoriesHold()
      reads this
    {
      && DaySum(daily) + bytesToday == DaySum(monthly) + bytesThisMonth == TotalOf(log)
      && (ArticleSum(articles).0 + arrived, ArticleSum(articles).1 + failed) == outcomes
    }

    ghost predicate Valid()
      reads this, seconds, minutes, hours
    {
      Shape() && RingsHold() && HistoriesHold()
    }

    constructor ()
      ensures Valid() && log == [] && last == None && fresh(seconds) && fresh(minutes) && fresh(hours)
    {
      seconds := new nat[60](_ => 0);
      minutes := new nat[60](_ => 0);
      hours := new nat[24](_ => 0);
      bytesToday, bytesThisMonth, daily, monthly, last := 0, 0, [], [], None;
      arrived, failed, articles := 0, 0, [];
      log, outcomes := [], (0, 0);
    }

    /** Moves the rings to the present. If the clock ran backwards only the time is taken back. */
    method AdvanceTo(now: nat)
      requires Shape()
      modifies this`last, seconds, minutes, hours
      ensures last == Some(now)
      ensures old(Valid() && (last.Some? ==> last.value <= now)) ==> Valid()
      ensures old(last.Some? && last.value > now) ==>
                seconds[..] == old(seconds[..]) && minutes[..] == old(minutes[..]) && hours[..] == old(hours[..])
    {
      hide Recorded, DaySum, TotalOf, Holds, Advanced;
      var before := last;
      if before.None? {
        if Valid() {
          EmptyRingHolds(seconds[..], now, 1);
          EmptyRingHolds(minutes[..], now / 60, 60);
          EmptyRingHolds(hours[..], now / 3600, 3600);
        }
        last := Some(now);
        return;
      }
      if now <= before.value {
        last := Some(now);
        return;
      }
      var prev := before.value;
      DivideMonotone(prev, now, 60);
      DivideMonotone(prev, now, 3600);
      if Valid() {
        AdvancedHolds(seconds[..], prev, now, log, 1, prev);
        AdvancedHolds(minutes[..], prev / 60, now / 60, log, 60, prev);
        AdvancedHolds(hours[..], prev / 3600, now / 3600, log, 3600, prev);
      }
      Advance(seconds, prev, now);
      Advance(minutes, prev / 60, now / 60);
      Advance(hours, prev / 3600, now / 3600);
      last := Some(now);
    }

    /** Adds the bytes to the slots of the current second, minute and hour. */
    method AddToRings(e: Entry)
      requires Shape() && last == Some(e.at)
      modifies seconds, minutes, hours
      ensures seconds[..] == Plus(old(seconds[..]), e.at % 60, e.bytes)
      ensures minutes[..] == Plus(old(minutes[..]), e.at / 60 % 60, e.bytes)
      ensures hours[..] == Plus(old(hours[..]), e.at / 3600 % 24, e.bytes)
      ensures old(RingsHold()) ==> RingsHoldWith(e)
    {
      hide Recorded, Holds;
      if RingsHold() {
        RingAdd(seconds[..], e.at, log, 1, e);
        RingAdd(minutes[..], e.at / 60, log, 60, e);
        RingAdd(hours[..], e.at / 3600, log, 3600, e);
      }
      var second, minute, hour := e.at % 60, e.at / 60 % 60, e.at / 3600 % 24;
      seconds[second] := seconds[second] + e.bytes;
      minutes[minute] := minutes[minute] + e.bytes;
      hours[hour] := hours[hour] + e.bytes;
    }

    ghost predicate RingsHoldWith(e: Entry)
      requires Shape()
      reads this, seconds, minutes, hours
    {
      && UpTo(log + [e], e.at)
      && Holds(seconds[..], e.at, log + [e], 1)
      && Holds(minutes[..], e.at / 60, log + [e], 60)
      && Holds(hours[..], e.at / 3600, log + [e], 3600)
    }

    method Record(bytes: nat, now: nat)
      requires Shape()
      modifies this`last, this`bytesToday, this`bytesThisMonth, this`log, seconds, minutes, hours
      ensures last == Some(now) && log == old(log) + [Entry(now, bytes)]
      ensures bytesToday == old(bytesToday) + bytes && bytesThisMonth == old(bytesThisMonth) + bytes
      ensures old(Valid() && (last.Some? ==> last.value <= now)) ==> Valid()
    {
      hide Recorded, Holds, DaySum, TotalOf, Plus;
      AdvanceTo(now);
      var e := Entry(now, bytes);
      AddToRings(e);
      bytesToday := bytesToday + bytes;
      bytesThisMonth := bytesThisMonth + bytes;
      TotalPush(log, e);
      log := log + [e];
    }

    method RecordSuccess()
      requires Valid()
      modifies this`arrived, this`outcomes
      ensures Valid() && arrived == old(arrived) + 1 && outcomes == (old(outcomes).0 + 1, old(outcomes).1)
    {
      hide Holds, Recorded, TotalOf, DaySum, ArticleSum;
      arrived := arrived + 1;
      outcomes := (outcomes.0 + 1, outcomes.1);
    }

    method RecordFailure()
      requires Valid()
      modifies this`failed, this`outcomes
      ensures Valid() && failed == old(failed) + 1 && outcomes == (old(outcomes).0, old(outcomes).1 + 1)
    {
      hide Holds, Recorded, TotalOf, DaySum, ArticleSum;
      failed := failed + 1;
      outcomes := (outcomes.0, outcomes.1 + 1);
    }

    /** Closes the day, and the month when it ends; nothing recorded is lost or counted twice. */
    method RollDay(lastDay: Date, today: Date, quotaStart: nat)
      requires Valid()
      modifies this`daily, this`monthly, this`bytesToday, this`bytesThisMonth, this`arrived, this`failed, this`articles
      ensures Valid() && RolledFrom(lastDay, today, quotaStart)
    {
      hide Holds, Recorded, TotalOf, DaySum, MonthEnds, ArticleSum;
      DaySumPush(daily, (lastDay, bytesToday));
      DaySumPush(monthly, (lastDay, bytesThisMonth));
      ArticleSumPush(articles, (lastDay, arrived, failed));
      daily := daily + [(lastDay, bytesToday)];
      articles := articles + [(lastDay, arrived, failed)];
      bytesToday, arrived, failed := 0, 0, 0;
      if MonthEnds(lastDay, today, quotaStart) {
        monthly := monthly + [(lastDay, bytesThisMonth)];
        bytesThisMonth := 0;
      }
    }

    /** The day has been closed since the old state. */
    twostate predicate RolledFrom(lastDay: Date, today: Date, quotaStart: nat)
      reads this
    {
      && bytesToday == 0 && arrived == 0 && failed == 0
      && daily == old(daily) + [(lastDay, old(bytesToday))]
      && articles == old(articles) + [(lastDay, old(arrived), old(failed))]
      && if MonthEnds(lastDay, today, quotaStart)
         then monthly == old(monthly) + [(lastDay, old(bytesThisMonth))] && bytesThisMonth == 0
         else monthly == old(monthly) && bytesThisMonth == old(bytesThisMonth)
    }
  }

  class StatsTracker {
    var volumes: map<nat, Volume>
    var lastDay: Date
    const quotaStart: nat

    constructor (today: Date, quotaStart: nat)
      ensures volumes == map[] && lastDay == today && this.quotaStart == quotaStart
    {
      volumes, lastDay := map[], today;
      this.quotaStart := quotaStart;
    }

    /** Closes the day of every server. */
    method RollDay(today: Date)
      requires forall id :: id in volumes ==> volumes[id].Valid()
      requires forall id, other :: id in volumes && other in volumes && id != other ==> volumes[id] != volumes[other]
      modifies this`lastDay, volumes.Values
      ensures lastDay == today
      ensures forall id :: id in volumes ==> volumes[id].Valid() && volumes[id].RolledFrom(old(lastDay), today, quotaStart)
    {
      hide Volume.Valid, MonthEnds;
      var rest := volumes.Keys;
      while rest != {}
        invariant rest <= volumes.Keys && lastDay == old(lastDay)
        invariant forall id :: id in volumes ==> volumes[id].Valid()
        invariant forall id :: id in rest ==> unchanged(volumes[id])
        invariant forall id :: id in volumes && id !in rest ==> volumes[id].RolledFrom(old(lastDay), today, quotaStart)
      {
        var id :| id in rest;
        assert volumes[id] in volumes.Values;
        volumes[id].RollDay(lastDay, today, quotaStart);
        rest := rest - {id};
      }
      lastDay := today;
    }
  }

  lemma ArticleSumPush(history: seq<(Date, nat, nat)>, day: (Date, nat, nat))
    ensures ArticleSum(history + [day]) == (ArticleSum(history).0 + day.1, ArticleSum(history).1 + day.2)
  {
    assert (history + [day])[..|history|] == history;
  }

  lemma TotalPush(log: seq<Entry>, e: Entry)
    ensures TotalOf(log + [e]) == TotalOf(log) + e.bytes
  {
    assert (log + [e])[..|log|] == log;
  }

  lemma DaySumPush(history: seq<(Date, nat)>, day: (Date, nat))
    ensures DaySum(history + [day]) == DaySum(history) + day.1
  {
    assert (history + [day])[..|history|] == history;
  }
}
