/** What the steps of the main loop come to: when nothing is sent, and what one dispatch records. */
module DispatchLaws {
  import opened Commands
  import opened Common
  import opened Dispatch
  import opened Inflight
  import opened Ledger
  import opened Queue
  import opened Scheduler
  import opened Selection
  import opened Tracking

  // ---- Pausing ----

  /** An article of a queued NZB that is not finished or failed yet; the report may name one that does not exist. */
  ghost predicate Wants(queue: seq<Nzb>, id: ArticleId) {
    exists i: nat :: i < |queue| && queue[i].id == id.nzb && (forall j :: 0 <= j < i ==> queue[j].id != id.nzb)
      && !(id.file < |queue[i].files| && id.seg < |queue[i].files[id.file].articles|
           && queue[i].files[id.file].articles[id.seg].status in {Finished, Failed})
  }

  /** A report pauses the coordinator if and only if the article was blocked and is still wanted; none resumes it. */
  lemma BlockedPauses(d: Desk, r: Report, notifies: bool)
    ensures Commanded(d, DownloadComplete(r), notifies).paused <==> d.paused || (r.outcome == Blocked && Wants(d.books.queue, r.id))
  {
    hide Reported, Landed;
    var i := IndexOf(d.books.queue, r.id.nzb);
    if i < |d.books.queue| {
      assert IsTerminal(d.books.queue[i], r.id.file, r.id.seg) <==>
        r.id.file < |d.books.queue[i].files| && r.id.seg < |d.books.queue[i].files[r.id.file].articles|
        && d.books.queue[i].files[r.id.file].articles[r.id.seg].status in {Finished, Failed};
    }
  }

  /** The next refill sends nothing then. */
  lemma BlockedStops(d: Desk, r: Report, setup: Setup, sent: seq<ArticleId>)
    requires IsOpen(d.books.queue, r.id) && r.outcome == Blocked
    requires Fills(Commanded(d, DownloadComplete(r), setup.notifies), setup, sent)
    ensures sent == []
  {
    BlockedPauses(d, r, setup.notifies);
    assert Wants(d.books.queue, r.id);
    hide Commanded, Launches, SentInTurn, Exhausted;
  }

  /** The blocked article can be sent again after a resume: it is in flight no more, and undefined. */
  lemma BlockedCanBeSentAgain(d: Desk, r: Report, notifies: bool)
    requires IsOpen(d.books.queue, r.id) && r.outcome == Blocked
    ensures var e := Commanded(d, DownloadComplete(r), notifies);
            && r.id !in e.active && IsOpen(e.books.queue, r.id)
            && ArticleAt(e.books.queue[IndexOf(e.books.queue, r.id.nzb)], r.id.file, r.id.seg).status == Undefined
  {
    var i := IndexOf(d.books.queue, r.id.nzb);
    var q := d.books.queue[i := Relabel(d.books.queue[i], r.id.file, r.id.seg, Undefined)];
    SameIndex(d.books.queue, q, r.id.nzb);
    hide Released, Decrement;
  }

  lemma {:induction false} SameIndex(q: seq<Nzb>, r: seq<Nzb>, id: nat)
    requires |q| == |r| && forall i :: 0 <= i < |q| ==> q[i].id == r[i].id
    ensures IndexOf(q, id) == IndexOf(r, id)
  {
    if q != [] && q[0].id != id {
      SameIndex(q[1..], r[1..], id);
    }
  }

  /** While nothing but a resume could end a pause, a run sends nothing and stays paused. */
  lemma {:induction false} NothingSentWhilePaused(d: Desk, setup: Setup, events: seq<Event>, fills: seq<seq<ArticleId>>)
    requires d.paused && |fills| == |events| && RunFills(d, setup, events, fills)
    requires forall k :: 0 <= k < |events| ==> events[k] != Incoming(Command.ResumeAll)
    ensures var end := AfterRun(d, setup, events, fills);
            && end.paused && end.active.Keys <= d.active.Keys && |end.outbox| <= |d.outbox|
            && forall k :: 0 <= k < |fills| ==> fills[k] == []
  {
    if events != [] {
      var n := |events| - 1;
      NothingSentWhilePaused(d, setup, events[..n], fills[..n]);
      StaysPaused(AfterRun(d, setup, events[..n], fills[..n]), events[n], setup, fills[n]);
      hide Handled, Fills, Filled;
      assert fills == fills[..n] + [fills[n]];
    }
  }

  lemma StaysPaused(d: Desk, e: Event, setup: Setup, sent: seq<ArticleId>)
    requires d.paused && e != Incoming(Command.ResumeAll) && Fills(Handled(d, e, setup.notifies), setup, sent)
    ensures var end := Filled(Handled(d, e, setup.notifies), setup, sent);
            end.paused && end.active.Keys <= d.active.Keys && |end.outbox| <= |d.outbox| && sent == []
  {
    HandledStaysPaused(d, e, setup.notifies);
    hide Handled, SentInTurn, Exhausted;
  }

  lemma HandledStaysPaused(d: Desk, e: Event, notifies: bool)
    requires d.paused && e != Incoming(Command.ResumeAll)
    ensures var end := Handled(d, e, notifies);
            end.paused && end.active.Keys <= d.active.Keys && |end.outbox| <= |d.outbox|
  {
    hide Effect, Reported, Sent, Pauses, Decrement, Released, FlightOf;
  }

  // ---- Switches ----

  /** Pausing changes the one flag; resuming clears it and those of all NZBs. */
  lemma SwitchesPause(d: Desk, notifies: bool)
    ensures Commanded(d, PauseAll, notifies) == d.(paused := true)
    ensures var e := Commanded(d, Command.ResumeAll, notifies);
            && !e.paused && e == d.(paused := false, books := d.books.(queue := e.books.queue))
            && |e.books.queue| == |d.books.queue|
            && forall i :: 0 <= i < |d.books.queue| ==> e.books.queue[i] == d.books.queue[i].(paused := false)
  {
  }

  lemma StrategySet(d: Desk, strategy: Strategy, notifies: bool)
    ensures Commanded(d, SetStrategy(strategy), notifies) == d.(strategy := strategy)
  {
  }

  /** After a shutdown nothing is in flight and nothing is sent. */
  lemma ShutdownStops(d: Desk, setup: Setup, sent: seq<ArticleId>)
    requires Fills(Commanded(d, Command.Shutdown, setup.notifies), setup, sent)
    ensures var e := Commanded(d, Command.Shutdown, setup.notifies);
            sent == [] && e.active == map[] && e.perFile == map[] && e.books == d.books
  {
    hide Launches, SentInTurn, Exhausted;
  }

  // ---- Landing ----

  /** A report lands in the slot of the server its article was assigned to, which counts how it went; other slots stay. */
  lemma LandingCounts(d: Desk, r: Report, k: nat)
    requires r.id in d.active && d.slots.Some? && k < |d.slots.value| && DistinctServers(d.slots.value)
    requires d.active[r.id].server == Some(d.slots.value[k].server) && (r.server == None || r.server == d.active[r.id].server)
    ensures var (e, before) := (Landed(d, r), d.slots.value);
            && e.active == d.active - {r.id} && e.outbox == d.outbox && e.books == d.books
            && e.slots.Some? && |e.slots.value| == |before|
            && (forall i :: 0 <= i < |before| && i != k ==> e.slots.value[i] == before[i])
            && var t := e.slots.value[k];
               && t.server == before[k].server && t.active == Less(before[k].active, 1)
               && t.pending == Less(before[k].pending, d.active[r.id].size)
               && t.succeeded == before[k].succeeded + (if r.outcome == Success then 1 else 0)
               && t.failed == before[k].failed + (if r.outcome == Success then 0 else 1)
               && t.bytes == before[k].bytes + (if r.outcome == Success then d.active[r.id].size else 0)
               && (r.outcome != Success ==> t.ewma == before[k].ewma)
  {
    hide Decrement;
    assert SlotOf(d.slots.value, d.slots.value[k].server) == k;
  }

  // ---- Sending ----

  /** No server has a connection free, or there is no article to take. */
  ghost predicate Stuck(d: Desk, limits: Limits) {
    || (d.slots.Some? && forall i :: 0 <= i < |d.slots.value| ==> !Free(d.slots.value[i]))
    || Follows(d.books.queue, d.perFile, limits, d.strategy, None)
  }

  lemma StuckMeans(d: Desk, limits: Limits)
    ensures Stuck(d, limits) <==> ServersFull(d.slots) || NothingToSelect(d, limits)
  {
    hide Follows;
    if d.slots.Some? {
      CapacitySomewhere(d.slots.value);
      assert forall i :: 0 <= i < |d.slots.value| ==> (HasCapacity(d.slots.value[i]) <==> Free(d.slots.value[i]));
    }
  }

  /**
   * A refill that is not paused goes on while there are fewer flights than connections, a server is
   * free, the channel has room and something can be selected, and sends what is selected each time.
   */
  lemma RefillGoesOn(d: Desk, setup: Setup, sent: seq<ArticleId>)
    requires Fills(d, setup, sent) && !d.paused && !d.shutdown
    ensures var e := Launches(d, sent);
            |e.active| >= Capacity(e.slots, setup.limits) || Stuck(e, setup.limits) || |e.outbox| >= setup.room
    ensures forall k :: 0 <= k < |sent| ==>
              var e := Launches(d, sent[..k]);
              && |e.active| < Capacity(e.slots, setup.limits) && !Stuck(e, setup.limits) && |e.outbox| < setup.room
              && Follows(e.books.queue, e.perFile, setup.limits, e.strategy, Some(sent[k]))
  {
    StuckMeans(Launches(d, sent), setup.limits);
    forall k | 0 <= k < |sent|
      ensures var e := Launches(d, sent[..k]);
              && |e.active| < Capacity(e.slots, setup.limits) && !Stuck(e, setup.limits) && |e.outbox| < setup.room
              && Follows(e.books.queue, e.perFile, setup.limits, e.strategy, Some(sent[k]))
    {
      InTurnPrefix(d, setup, sent, k);
      StuckMeans(Launches(d, sent[..k]), setup.limits);
      hide SentInTurn, Stuck, ServersFull, NothingToSelect, Follows, Launches, Capacity;
    }
  }

  /**
   * One dispatch: the article runs, its file has one more in flight, and flight, assignment and the
   * server's slot agree on its size and on the server, which is the idlest one.
   */
  lemma LaunchRecords(d: Desk, id: ArticleId)
    requires IsOpen(d.books.queue, id) && id !in d.active && (d.slots.Some? ==> DistinctServers(d.slots.value))
    ensures var e := Launched(d, id);
            var i := IndexOf(d.books.queue, id.nzb);
            var size := d.books.queue[i].files[id.file].articles[id.seg].size;
            && id in e.active && e.active == d.active[id := e.active[id]] && e.active[id].size == size
            && e.outbox == d.outbox + [Assignment(id, size, e.active[id].server)]
            && |e.books.queue| == |d.books.queue| && e.books == d.books.(queue := e.books.queue)
            && e.books.queue[i] == Relabel(d.books.queue[i], id.file, id.seg, Running)
            && (forall j :: 0 <= j < |d.books.queue| && j != i ==> e.books.queue[j] == d.books.queue[j])
            && ActiveOf(e.perFile, id.nzb, id.file) == ActiveOf(d.perFile, id.nzb, id.file) + 1
            && ChargedTo(d.slots, e.slots, e.active[id].server, size)
  {
    var size := ArticleSize(d.books.queue, id);
    ChargesIdlest(d.slots, size);
    hide Charged, ServerFor, ChargedTo, Relabel;
  }

  /** Slot k is the idlest one and has one article and these bytes more. */
  ghost predicate ChargedAt(before: seq<Slot>, after: Option<seq<Slot>>, server: nat, size: nat, k: nat) {
    && IdlestFirst(before, k) && before[k].server == server
    && after == Some(before[k := before[k].(active := before[k].active + 1, pending := before[k].pending + size)])
  }

  /** The idlest server is charged; without a free one nothing changes. */
  ghost predicate ChargedTo(before: Option<seq<Slot>>, after: Option<seq<Slot>>, server: Option<nat>, size: nat) {
    if before.Some? && server.Some? then exists k: nat :: ChargedAt(before.value, after, server.value, size, k)
    else after == before && server == None && (before.Some? ==> forall i :: 0 <= i < |before.value| ==> !Free(before.value[i]))
  }

  lemma ChargesIdlest(slots: Option<seq<Slot>>, size: nat)
    requires slots.Some? ==> DistinctServers(slots.value)
    ensures ChargedTo(slots, Charged(slots, size), ServerFor(slots), size)
  {
    hide Scheduler.Select, ChargedAt;
    if slots.Some? {
      if Scheduler.Select(slots.value).Some? {
        var k := ChargesSlot(slots.value, size);
        hide Charged;
      } else {
        SelectsIdlest(slots.value);
      }
    }
  }

  lemma ChargesSlot(slots: seq<Slot>, size: nat) returns (k: nat)
    requires DistinctServers(slots) && Scheduler.Select(slots).Some?
    ensures ChargedAt(slots, Charged(Some(slots), size), Scheduler.Select(slots).value, size, k)
  {
    SelectsIdlest(slots);
    k :| IdlestFirst(slots, k) && slots[k].server == Scheduler.Select(slots).value;
    hide Scheduler.Select, NotBusier, Speed;
    SlotOfServer(slots, k);
  }

  lemma SlotOfServer(slots: seq<Slot>, k: nat)
    requires DistinctServers(slots) && k < |slots|
    ensures SlotOf(slots, slots[k].server) == k
  {
  }
}
