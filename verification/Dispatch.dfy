/** The whole state of the coordinator as one value, and the steps of its main loop on it. */
module Dispatch {
  import opened Commands
  import opened Common
  import opened Inflight
  import opened Ledger
  import opened Queue
  import opened Scheduler
  import opened Selection
  import opened Tracking

  datatype Assignment = Assignment(id: ArticleId, size: nat, server: Option<nat>)

  /** `room` is the capacity of the assignment channel; `notifies` says whether a post-processor is installed. */
  datatype Setup = Setup(limits: Limits, room: nat, notifies: bool)

  /** `slots` is None without a server scheduler. */
  datatype Desk = Desk(
    books: Books, active: Flights, perFile: Counts, outbox: seq<Assignment>, slots: Option<seq<Slot>>,
    paused: bool, strategy: Strategy, shutdown: bool)

  /** A command, the periodic refill, or a worker taking an assignment. */
  datatype Event = Incoming(command: Command) | Tick | Worker

  // ---- Sending one article ----

  function ServerFor(slots: Option<seq<Slot>>): Option<nat> {
    if slots.None? then None else Select(slots.value)
  }

  /** The selected server is charged with the article. */
  function Charged(slots: Option<seq<Slot>>, size: nat): Option<seq<Slot>> {
    var server := ServerFor(slots);
    if server.None? then slots
    else
      var k := SlotOf(slots.value, server.value);
      if k == |slots.value| then slots else Some(slots.value[k := Assign(slots.value[k], size)])
  }

  /** The channel was full: the selected server has one failure more. */
  function Refused(slots: Option<seq<Slot>>): Option<seq<Slot>> {
    var server := ServerFor(slots);
    if server.None? then slots
    else
      var k := SlotOf(slots.value, server.value);
      if k == |slots.value| then slots
      else Some(slots.value[k := slots.value[k].(failed := slots.value[k].failed + 1)])
  }

  function ArticleSize(q: seq<Nzb>, id: ArticleId): nat
    requires IsOpen(q, id)
  {
    ArticleAt(q[IndexOf(q, id.nzb)], id.file, id.seg).size
  }

  function Launched(d: Desk, id: ArticleId): Desk {
    if !IsOpen(d.books.queue, id) then d
    else
      var q := d.books.queue;
      var i := IndexOf(q, id.nzb);
      var size := ArticleSize(q, id);
      var server := ServerFor(d.slots);
      d.(books := d.books.(queue := q[i := Relabel(q[i], id.file, id.seg, Running)]),
         active := d.active[id := Flight(server, size)],
         perFile := Increment(d.perFile, (id.nzb, id.file)),
         outbox := d.outbox + [Assignment(id, size, server)],
         slots := Charged(d.slots, size))
  }

  /** All connections of all servers, or the configured number without a scheduler. */
  function Capacity(slots: Option<seq<Slot>>, limits: Limits): nat {
    if slots.Some? then MaxConnections(slots.value) else limits.connections
  }

  predicate ServersFull(slots: Option<seq<Slot>>) {
    slots.Some? && Available(slots.value) == 0
  }

  ghost predicate NothingToSelect(d: Desk, limits: Limits) {
    Follows(d.books.queue, d.perFile, limits, d.strategy, None)
  }

  /** The article the strategy selects, with a server and the channel free for it. */
  ghost predicate Sendable(d: Desk, setup: Setup, id: ArticleId) {
    && !ServersFull(d.slots) && |d.outbox| < setup.room
    && Follows(d.books.queue, d.perFile, setup.limits, d.strategy, Some(id))
  }

  // ---- Filling the slots ----

  function Launches(d: Desk, sent: seq<ArticleId>): Desk {
    if sent == [] then d else Launched(Launches(d, sent[..|sent| - 1]), sent[|sent| - 1])
  }

  /** Each article was sendable in the state its predecessors left, and there was a slot for it. */
  ghost predicate SentInTurn(d: Desk, setup: Setup, sent: seq<ArticleId>) {
    sent == [] ||
    var e := Launches(d, sent[..|sent| - 1]);
    && SentInTurn(d, setup, sent[..|sent| - 1])
    && |e.active| < Capacity(e.slots, setup.limits) && Sendable(e, setup, sent[|sent| - 1])
  }

  /** No slot, no server or no article is left. */
  ghost predicate Exhausted(d: Desk, setup: Setup) {
    |d.active| >= Capacity(d.slots, setup.limits) || ServersFull(d.slots) || NothingToSelect(d, setup.limits)
  }

  /** One refill sends exactly these articles: it stops when exhausted or when the channel is full. */
  ghost predicate Fills(d: Desk, setup: Setup, sent: seq<ArticleId>) {
    if d.paused || d.shutdown then sent == []
    else
      var e := Launches(d, sent);
      SentInTurn(d, setup, sent) && (Exhausted(e, setup) || |e.outbox| >= setup.room)
  }

  ghost function Filled(d: Desk, setup: Setup, sent: seq<ArticleId>): Desk {
    var e := Launches(d, sent);
    if d.paused || d.shutdown || Exhausted(e, setup) then e else e.(slots := Refused(e.slots))
  }

  /** What may still be sent after a prefix is not what stops the refill. */
  lemma {:induction false} InTurnPrefix(d: Desk, setup: Setup, sent: seq<ArticleId>, k: nat)
    requires SentInTurn(d, setup, sent) && k < |sent|
    ensures SentInTurn(d, setup, sent[..k])
    ensures var e := Launches(d, sent[..k]);
            !Exhausted(e, setup) && Sendable(e, setup, sent[k])
  {
    hide Launched, Follows;
    var n := |sent| - 1;
    var e := Launches(d, sent[..n]);
    if k < n {
      InTurnPrefix(d, setup, sent[..n], k);
      assert sent[..n][..k] == sent[..k];
    } else {
      if NothingToSelect(e, setup.limits) {
        FollowsUnique(e.books.queue, e.perFile, setup.limits, e.strategy, Some(sent[n]), None);
      }
    }
  }

  lemma {:induction false} SameChoices(d: Desk, setup: Setup, a: seq<ArticleId>, b: seq<ArticleId>, k: nat)
    requires SentInTurn(d, setup, a) && SentInTurn(d, setup, b) && k <= |a| && k <= |b|
    ensures a[..k] == b[..k]
  {
    hide Launched, Follows, SentInTurn, Exhausted;
    if k > 0 {
      SameChoices(d, setup, a, b, k - 1);
      InTurnPrefix(d, setup, a, k - 1);
      InTurnPrefix(d, setup, b, k - 1);
      var e := Launches(d, a[..k - 1]);
      FollowsUnique(e.books.queue, e.perFile, setup.limits, e.strategy, Some(a[k - 1]), Some(b[k - 1]));
      assert a[..k] == a[..k - 1] + [a[k - 1]] && b[..k] == b[..k - 1] + [b[k - 1]];
    }
  }

  /** The state determines what a refill sends. */
  lemma FillsUnique(d: Desk, setup: Setup, a: seq<ArticleId>, b: seq<ArticleId>)
    requires Fills(d, setup, a) && Fills(d, setup, b)
    ensures a == b
  {
    if !d.paused && !d.shutdown {
      hide Launches, Sendable, Exhausted;
      if |a| <= |b| {
        ShorterFill(d, setup, a, b);
      } else {
        ShorterFill(d, setup, b, a);
      }
    }
  }

  lemma ShorterFill(d: Desk, setup: Setup, a: seq<ArticleId>, b: seq<ArticleId>)
    requires Fills(d, setup, a) && SentInTurn(d, setup, b) && !d.paused && !d.shutdown && |a| <= |b|
    ensures a == b
  {
    SameChoices(d, setup, a, b, |a|);
    assert a[..|a|] == a;
    if |a| < |b| {
      InTurnPrefix(d, setup, b, |a|);
    } else {
      assert b[..|a|] == b;
    }
  }

  // ---- Commands and events ----

  /** The slot of the server that a report names, or else of the one its article was assigned to. */
  function Released(slots: seq<Slot>, r: Report, flight: Option<Flight>): seq<Slot> {
    var server := if r.server.Some? then r.server else if flight.Some? then flight.value.server else None;
    var size := if flight.Some? then flight.value.size else 0;
    var k := if server.Some? then SlotOf(slots, server.value) else |slots|;
    if k < |slots| then slots[k := Complete(slots[k], size, r.seconds, r.outcome == Success)] else slots
  }

  function FlightOf(active: Flights, id: ArticleId): Option<Flight> {
    if id in active then Some(active[id]) else None
  }

  function Landed(d: Desk, r: Report): Desk {
    d.(active := d.active - {r.id},
       perFile := Decrement(d.perFile, (r.id.nzb, r.id.file)),
       slots := if d.slots.None? then None else Some(Released(d.slots.value, r, FlightOf(d.active, r.id))))
  }

  /** A blocked article pauses the queue, unless its NZB is gone or it was settled already. */
  predicate Pauses(queue: seq<Nzb>, r: Report) {
    var i := IndexOf(queue, r.id.nzb);
    r.outcome == Blocked && i < |queue| && !IsTerminal(queue[i], r.id.file, r.id.seg)
  }

  function Commanded(d: Desk, c: Command, notifies: bool): Desk {
    match c
    case DownloadComplete(r) =>
      Landed(d, r).(books := Reported(d.books, r.id, r.outcome, notifies), paused := d.paused || Pauses(d.books.queue, r))
    case PauseAll => d.(paused := true)
    case ResumeAll => d.(books := Effect(d.books, c, notifies), paused := false)
    case SetStrategy(strategy) => d.(strategy := strategy)
    case Shutdown => d.(active := map[], perFile := map[], shutdown := true)
    case _ => d.(books := Effect(d.books, c, notifies))
  }

  /**
   * What the rest of the application sends: a report is about an article in flight and names the
   * server it was assigned to or none; post-processing ends for an NZB with all files complete.
   */
  predicate Expected(queue: seq<Nzb>, active: Flights, c: Command) {
    match c
    case DownloadComplete(r) => r.id in active && (r.server.Some? ==> r.server == active[r.id].server)
    case FinishPostProcessing(id) =>
      var i := IndexOf(queue, id);
      i < |queue| ==> AllCompleted(queue[i])
    case _ => true
  }

  /** A worker takes an assignment off the channel before it reports on it. */
  predicate Taken(outbox: seq<Assignment>, c: Command) {
    c.DownloadComplete? ==> forall k :: 0 <= k < |outbox| ==> outbox[k].id != c.report.id
  }

  predicate Sent(d: Desk, c: Command) {
    Expected(d.books.queue, d.active, c) && Taken(d.outbox, c)
  }

  function Handled(d: Desk, e: Event, notifies: bool): Desk {
    match e
    case Incoming(c) => if Sent(d, c) then Commanded(d, c, notifies) else d
    case Tick => d
    case Worker => if d.outbox == [] then d else d.(outbox := d.outbox[1..])
  }

  /** The main loop: each event is handled and then the slots are refilled. */
  ghost function AfterRun(d: Desk, setup: Setup, events: seq<Event>, fills: seq<seq<ArticleId>>): Desk
    requires |fills| == |events|
  {
    if events == [] then d
    else
      var n := |events| - 1;
      Filled(Handled(AfterRun(d, setup, events[..n], fills[..n]), events[n], setup.notifies), setup, fills[n])
  }

  ghost predicate RunFills(d: Desk, setup: Setup, events: seq<Event>, fills: seq<seq<ArticleId>>)
    requires |fills| == |events|
  {
    events == [] ||
    var n := |events| - 1;
    && RunFills(d, setup, events[..n], fills[..n])
    && Fills(Handled(AfterRun(d, setup, events[..n], fills[..n]), events[n], setup.notifies), setup, fills[n])
  }

  /** The start and the events determine the whole run. */
  lemma {:induction false} RunUnique(d: Desk, setup: Setup, events: seq<Event>, a: seq<seq<ArticleId>>, b: seq<seq<ArticleId>>)
    requires |a| == |b| == |events| && RunFills(d, setup, events, a) && RunFills(d, setup, events, b)
    ensures a == b
  {
    hide Handled, Filled, Fills;
    if events != [] {
      var n := |events| - 1;
      RunUnique(d, setup, events[..n], a[..n], b[..n]);
      FillsUnique(Handled(AfterRun(d, setup, events[..n], a[..n]), events[n], setup.notifies), setup, a[n], b[n]);
      assert a == a[..n] + [a[n]] && b == b[..n] + [b[n]];
    }
  }

  // ---- The channel ----

  /** What is on the channel is in flight, each article once. */
  ghost predicate Boxed(d: Desk) {
    && (forall k :: 0 <= k < |d.outbox| ==> d.outbox[k].id in d.active)
    && forall k, l :: 0 <= k < l < |d.outbox| ==> d.outbox[k].id != d.outbox[l].id
  }

  /** What was sent: fresh articles, each once, in order on the channel and all in flight. */
  ghost predicate Dispatched(before: Desk, after: Desk, sent: seq<ArticleId>) {
    var oldBox, newBox := before.outbox, after.outbox;
    && |newBox| == |oldBox| + |sent| && oldBox <= newBox
    && (forall k :: 0 <= k < |sent| ==>
          newBox[|oldBox| + k].id == sent[k] && sent[k] in after.active && sent[k] !in before.active)
    && (forall k, l :: 0 <= k < l < |sent| ==> sent[k] != sent[l])
    && after.active.Keys == before.active.Keys + set id | id in sent
  }

  lemma DispatchedBoxed(d: Desk, e: Desk, sent: seq<ArticleId>)
    requires Boxed(d) && Dispatched(d, e, sent)
    ensures Boxed(e)
  {
    forall k | 0 <= k < |e.outbox|
      ensures e.outbox[k].id in e.active && (k >= |d.outbox| ==> e.outbox[k].id == sent[k - |d.outbox|])
      ensures k < |d.outbox| ==> e.outbox[k] == d.outbox[k] && e.outbox[k].id in d.active
    {
      if k < |d.outbox| {
        assert e.outbox[k] == d.outbox[k];
        assert e.outbox[k].id in d.active.Keys;
      } else {
        assert e.outbox[|d.outbox| + (k - |d.outbox|)].id == sent[k - |d.outbox|];
      }
    }
  }

  /** Until shutdown every event keeps it so. */
  lemma HandledBoxed(d: Desk, e: Event, notifies: bool)
    requires Boxed(d) && e != Incoming(Command.Shutdown)
    ensures Boxed(Handled(d, e, notifies))
  {
    if e.Incoming? && Sent(d, e.command) {
      CommandedBox(d, e.command, notifies);
    }
    hide Commanded, Sent;
  }

  /** A report takes its own article out of flight, and that one has been taken off the channel. */
  lemma CommandedBox(d: Desk, c: Command, notifies: bool)
    requires Boxed(d) && Sent(d, c) && c != Command.Shutdown
    ensures Boxed(Commanded(d, c, notifies))
  {
    hide Effect, Reported, Expected, Pauses, Decrement, Released, Boxed;
    var e := Commanded(d, c, notifies);
    assert e.outbox == d.outbox;
    assert forall k :: 0 <= k < |d.outbox| && d.outbox[k].id in d.active ==> d.outbox[k].id in e.active;
    BoxKept(d, e);
  }

  lemma BoxKept(d: Desk, e: Desk)
    requires Boxed(d) && e.outbox == d.outbox
    requires forall k :: 0 <= k < |d.outbox| && d.outbox[k].id in d.active ==> d.outbox[k].id in e.active
    ensures Boxed(e)
  {
  }

  lemma {:induction false} BoxSize(box: seq<Assignment>, keys: set<ArticleId>)
    requires forall k :: 0 <= k < |box| ==> box[k].id in keys
    requires forall k, l :: 0 <= k < l < |box| ==> box[k].id != box[l].id
    ensures |box| <= |keys|
  {
    if box != [] {
      var last := box[|box| - 1].id;
      BoxSize(box[..|box| - 1], keys - {last});
    }
  }

  lemma ChargedConnections(slots: Option<seq<Slot>>, limits: Limits, size: nat)
    ensures Capacity(Charged(slots, size), limits) == Capacity(slots, limits)
  {
    hide Select, SlotOf, MaxConnections;
    var after := Charged(slots, size);
    if slots.Some? {
      SameConnections(slots.value, after.value);
    }
  }

  lemma {:induction false} LaunchesCapacity(d: Desk, limits: Limits, sent: seq<ArticleId>)
    ensures Capacity(Launches(d, sent).slots, limits) == Capacity(d.slots, limits)
  {
    hide Capacity, Charged, IsOpen, Relabel, Increment;
    if sent != [] {
      var n := |sent| - 1;
      LaunchesCapacity(d, limits, sent[..n]);
      var e := Launches(d, sent[..n]);
      if IsOpen(e.books.queue, sent[n]) {
        ChargedConnections(e.slots, limits, ArticleSize(e.books.queue, sent[n]));
      }
    }
  }

  /**
   * With room for as many assignments as there are connections the channel is never full: a refill
   * ends exhausted and no server is charged with a failure for it.
   */
  lemma RoomSuffices(d: Desk, setup: Setup, sent: seq<ArticleId>)
    requires Fills(d, setup, sent) && !d.paused && !d.shutdown && Boxed(Launches(d, sent))
    requires Capacity(d.slots, setup.limits) <= setup.room
    ensures Exhausted(Launches(d, sent), setup) && Filled(d, setup, sent) == Launches(d, sent)
  {
    var e := Launches(d, sent);
    LaunchesCapacity(d, setup.limits, sent);
    BoxSize(e.outbox, e.active.Keys);
    assert |e.active.Keys| == |e.active|;
    hide Launches, SentInTurn, Capacity, ServersFull, NothingToSelect;
  }

  lemma FilledCapacity(d: Desk, setup: Setup, sent: seq<ArticleId>)
    ensures Capacity(Filled(d, setup, sent).slots, setup.limits) == Capacity(d.slots, setup.limits)
  {
    var slots := Launches(d, sent).slots;
    LaunchesCapacity(d, setup.limits, sent);
    hide Launches, Exhausted, Select, SlotOf, MaxConnections;
    if slots.Some? {
      SameConnections(slots.value, Refused(slots).value);
    }
  }

  /** Connections are configured once; no event changes them. */
  lemma HandledCapacity(d: Desk, e: Event, notifies: bool, limits: Limits)
    ensures Capacity(Handled(d, e, notifies).slots, limits) == Capacity(d.slots, limits)
  {
    if e.Incoming? && e.command.DownloadComplete? && d.slots.Some? {
      ReleasedConnections(d.slots.value, e.command.report, FlightOf(d.active, e.command.report.id));
    }
    hide Effect, Reported, Sent, Pauses, Decrement, Released, FlightOf, MaxConnections;
  }

  lemma ReleasedConnections(slots: seq<Slot>, r: Report, flight: Option<Flight>)
    ensures MaxConnections(Released(slots, r, flight)) == MaxConnections(slots)
  {
    hide SlotOf, MaxConnections;
    SameConnections(slots, Released(slots, r, flight));
  }

  /** No refill of the run finds the channel full. */
  ghost predicate NeverRefused(d: Desk, setup: Setup, events: seq<Event>, fills: seq<seq<ArticleId>>)
    requires |fills| == |events|
  {
    events == [] ||
    var n := |events| - 1;
    var handled := Handled(AfterRun(d, setup, events[..n], fills[..n]), events[n], setup.notifies);
    && NeverRefused(d, setup, events[..n], fills[..n])
    && Filled(handled, setup, fills[n]) == Launches(handled, fills[n])
  }

  /** The capacity of the assignment channel for a number of connections. */
  function ChannelRoom(connections: nat): (room: nat)
    ensures room >= 4 * connections && room >= 256 && (room == 256 || room == 4 * connections)
  {
    4 * if connections > 64 then connections else 64
  }
}
