/** The queue coordinator: commands and download reports drive it, assignments leave it. */
module Coordinator {
  import opened Commands
  import opened Common
  import opened Dispatch
  import opened History
  import opened Inflight
  import opened Ledger
  import opened Progress
  import opened Queue
  import opened Scheduler
  import opened Selection
  import opened Tracking

  lemma AddKeeps(b: Books, active: Flights, n: Nzb, top: bool)
    requires Sound(b) && Tracks(b.queue, active, b.next) && Carried(b.queue, active.Keys, b.next, b.stalled)
    requires n.id == b.next && Queue.Balanced(n) && Trusted(n)
    ensures Sound(b.(next := b.next + 1)) && Tracks(b.queue, active, b.next + 1)
    ensures Carried(b.queue, active.Keys, b.next + 1, b.stalled)
    ensures var after := Enter(b, n, top);
            && Sound(after) && Tracks(after.queue, active, after.next)
            && Carried(after.queue, active.Keys, after.next, after.stalled)
  {
    SkipIdSound(b);
    SkipIdTracks(b.queue, active, b.next);
    EnterSound(b, n, top);
    EnterTracks(b.queue, active, b.next, n, top);
    CarriedSkip(b.queue, active.Keys, b.next, b.stalled);
    CarriedEnter(b.queue, active.Keys, b.next, b.stalled, n, top);
    hide Sound, Tracks, Carried, Queue.Balanced, Stalling, Trusted;
  }

  lemma MoveKeeps(b: Books, active: Flights, i: nat, k: Option<nat>)
    requires Sound(b) && Tracks(b.queue, active, b.next) && i < |b.queue|
    requires Carried(b.queue, active.Keys, b.next, b.stalled)
    requires k.Some? ==> k.value < |b.queue|
    ensures var rest := Without(b.queue, i);
            && Sound(b.(queue := rest)) && Tracks(rest, active, b.next) && Carried(rest, active.Keys, b.next, b.stalled)
            && (k.Some? ==>
                  var moved := Inserted(rest, k.value, b.queue[i]);
                  && Sound(b.(queue := moved)) && Tracks(moved, active, b.next)
                  && Carried(moved, active.Keys, b.next, b.stalled)
                  && multiset(moved) == multiset(b.queue))
  {
    RemoveSound(b, i);
    WithoutTracks(b.queue, active, b.next, i);
    CarriedWithout(b.queue, active.Keys, b.next, b.stalled, i);
    if k.Some? {
      MoveSound(b, i, k.value);
      MoveTracks(b.queue, active, b.next, i, k.value);
      CarriedMove(b.queue, active.Keys, b.next, b.stalled, i, k.value);
      MovePermutes(b.queue, i, k.value);
    }
    hide Sound, Tracks, Carried, Inserted;
  }

  lemma ReturnKeeps(b: Books, active: Flights, k: nat)
    requires Sound(b) && Tracks(b.queue, active, b.next) && Carried(b.queue, active.Keys, b.next, b.stalled) && k < |b.history|
    ensures var r := Returned(b, k);
            Sound(r) && Tracks(r.queue, active, b.next + 1) && Carried(r.queue, active.Keys, b.next + 1, r.stalled)
    ensures var r := Redownloaded(b, k);
            Sound(r) && Tracks(r.queue, active, b.next + 1) && Carried(r.queue, active.Keys, b.next + 1, r.stalled)
  {
    ReturnedSound(b, k);
    RedownloadedSound(b, k);
    EnterTracks(b.queue, active, b.next, b.history[k].(id := b.next, paused := false), false);
    EnterTracks(b.queue, active, b.next, Reset(b.history[k], b.next), false);
    CarriedEnter(b.queue, active.Keys, b.next, b.stalled, b.history[k].(id := b.next, paused := false), false);
    CarriedEnter(b.queue, active.Keys, b.next, b.stalled, Reset(b.history[k], b.next), false);
    hide Sound, Tracks, Carried, Stalling;
  }

  lemma ProcessKeeps(b: Books, active: Flights, k: nat, notifies: bool)
    requires Sound(b) && Tracks(b.queue, active, b.next) && Grounded(b.exits, active) && k < |b.history|
    ensures var p := Processed(b, k, notifies);
            Sound(p) && Tracks(p.queue, active, b.next + 1) && Grounded(p.exits, active)
    ensures forall n: Nzb :: n.id == b.next ==> IndexOf(b.queue + [n], n.id) == |b.queue|
  {
    forall n: Nzb | n.id == b.next
      ensures IndexOf(b.queue + [n], n.id) == |b.queue|
    {
      assert (b.queue + [n])[|b.queue|] == n;
    }
    assert forall id :: id in active ==> id.nzb != b.next;
    hide Sound, Tracks, AllCompleted, Processed;
    ProcessedSound(b, k, notifies);
    var n := Unread(b, k);
    EnterTracks(b.queue, active, b.next, n, false);
    EnterTracks(b.queue, active, b.next, n.(post := true), false);
    SkipIdTracks(b.queue, active, b.next);
    ProcessedQueue(b, k, notifies);
  }

  lemma ProcessedQueue(b: Books, k: nat, notifies: bool)
    requires k < |b.history|
    ensures var n, p := Unread(b, k), Processed(b, k, notifies);
            && AllCompleted(n) && p.exits == b.exits + [Completed(b.next)]
            && p.stalled == Stalling(n, b.stalled)
            && p.queue == if notifies then b.queue + [n.(post := true)] else b.queue
  {
    var n := Unread(b, k);
    assert AllCompleted(n);
    hide AllCompleted, Stalling;
    assert Without(b.queue + [n], |b.queue|) == b.queue;
    assert (b.queue + [n])[|b.queue| := n.(post := true)] == b.queue + [n.(post := true)];
  }

  lemma ProcessCarried(b: Books, keys: set<ArticleId>, k: nat, notifies: bool)
    requires Carried(b.queue, keys, b.next, b.stalled) && k < |b.history|
    ensures Carried(Processed(b, k, notifies).queue, keys, b.next + 1, Stalling(Unread(b, k), b.stalled))
  {
    var n := Unread(b, k);
    var q := b.queue + [n];
    CarriedEnter(b.queue, keys, b.next, b.stalled, n, false);
    CarriedWithout(q, keys, b.next + 1, Stalling(n, b.stalled), |b.queue|);
    if n.id !in Stalling(n, b.stalled) {
      assert Live(q[|b.queue|], keys);
      PostLive(n, keys);
    }
    CarriedReplace(q, keys, b.next + 1, Stalling(n, b.stalled), |b.queue|, n.(post := true));
    hide Carried, Stalling, AllCompleted, Live;
    ProcessedQueue(b, k, notifies);
    assert Without(q, |b.queue|) == b.queue;
    assert q[|b.queue| := n.(post := true)] == b.queue + [n.(post := true)];
  }

  lemma FinishedKeeps(b: Books, active: Flights, i: nat)
    requires Sound(b) && Tracks(b.queue, active, b.next) && Carried(b.queue, active.Keys, b.next, b.stalled)
    requires i < |b.queue| && AllCompleted(b.queue[i])
    ensures var after := Without(b.queue, i);
            && Sound(b.(queue := after, history := b.history + [b.queue[i].(post := false)]))
            && Tracks(after, active, b.next) && Carried(after, active.Keys, b.next, b.stalled)
  {
    var n, m := b.queue[i], b.queue[i].(post := false);
    assert Queue.Balanced(n) && Trusted(n);
    FlagsBalanced(n, m);
    FlagsTrusted(n, m);
    CompletedShelved(n);
    hide Sound, Queue.Balanced, Shelved, Trusted, Tracks, Carried;
    ArchiveSound(b, i, m);
    WithoutTracks(b.queue, active, b.next, i);
    CarriedWithout(b.queue, active.Keys, b.next, b.stalled, i);
  }

  lemma LandSlot(slots: seq<Slot>, active: Flights, id: ArticleId, seconds: real, success: bool)
    requires AllAgree(slots, active) && id in active
    ensures var server := active[id].server;
            var k := if server.Some? then SlotOf(slots, server.value) else |slots|;
            AllAgree(if k < |slots| then slots[k := Complete(slots[k], active[id].size, seconds, success)] else slots,
                     active - {id})
  {
    var server := active[id].server;
    var k := if server.Some? then SlotOf(slots, server.value) else |slots|;
    if k < |slots| {
      LandAgrees(slots, active, k, id, seconds, success);
    } else {
      LandElsewhereAgrees(slots, active, id);
    }
  }

  lemma JudgedByHealth(b: Books, i: nat, f: nat, notifies: bool)
    requires i < |b.queue|
    ensures var m := WithHealth(b.queue[i]);
            var c := GiveUp(b.(queue := b.queue[i := m]), i);
            var d := b.queue[i := m][i := CloseFile(m, f)];
            && c.queue == Without(b.queue[i := m], i) == Without(b.queue, i)
            && Judged(b, i, f, notifies) == if Hopeless(m) then c else Finish(b.(queue := d), i, notifies)
  {
    var m := WithHealth(b.queue[i]);
    assert b.queue[i := m][i := CloseFile(m, f)] == b.queue[i := CloseFile(m, f)];
    assert Without(b.queue[i := m], i) == Without(b.queue, i);
  }

  lemma SoundIdentified(b: Books)
    requires Sound(b)
    ensures Identified(b.queue, b.history, b.next) && AllTrusted(b.queue)
  {
  }

  lemma ReportKeeps(b: Books, active: Flights, r: Report, notifies: bool)
    requires Sound(b) && Tracks(b.queue, active, b.next) && Grounded(b.exits, active) && r.id in active
    requires Carried(b.queue, active.Keys, b.next, b.stalled)
    ensures var after := Reported(b, r.id, r.outcome, notifies);
            && Sound(after) && Tracks(after.queue, active - {r.id}, after.next) && Grounded(after.exits, active - {r.id})
            && Carried(after.queue, (active - {r.id}).Keys, after.next, after.stalled)
  {
    SoundIdentified(b);
    InFlightKnown(b.queue, active, b.next, r.id);
    assert Completed(r.id.nzb) !in b.exits;
    LandTracks(b.queue, active, b.next, r.id);
    assert Grounded(b.exits, active - {r.id});
    hide Sound, Tracks, Carried, Grounded, Known, IsOpen;
    ReportedSound(b, r.id, r.outcome, notifies);
    CarriedReport(b, active.Keys, r.id, r.outcome, notifies);
    assert (active - {r.id}).Keys == active.Keys - {r.id};
    ReportedTracks(b, active - {r.id}, r.id, r.outcome, notifies);
    ReportedGrounded(b, active - {r.id}, r.id, r.outcome, notifies);
    ReportedNext(b, r.id, r.outcome, notifies);
  }

  lemma ReportedNext(b: Books, id: ArticleId, outcome: Outcome, notifies: bool)
    ensures var after := Reported(b, id, outcome, notifies);
            after.next == b.next && after.stalled == b.stalled
  {
    hide Booked, CloseFile, WithHealth, Hopeless, AllCompleted;
  }

  lemma InFlightKnown(queue: seq<Nzb>, active: Flights, next: nat, id: ArticleId)
    requires Tracks(queue, active, next) && id in active
    ensures Known(queue, id)
  {
    var i := IndexOf(queue, id.nzb);
    assert i < |queue| ==> Flying(queue[i], id);
  }

  /** The selected article is undefined in the queue, hence not in flight; its NZB has not completed. */
  lemma LaunchFresh(b: Books, active: Flights, counts: Counts, limits: Limits, strategy: Strategy, id: ArticleId)
    requires Sound(b) && Tracks(b.queue, active, b.next)
    requires Follows(b.queue, counts, limits, strategy, Some(id))
    ensures id !in active && IsOpen(b.queue, id) && Completed(id.nzb) !in b.exits
    ensures var i := IndexOf(b.queue, id.nzb);
            && i < |b.queue| && HasArticle(b.queue[i], id.file, id.seg)
            && ArticleAt(b.queue[i], id.file, id.seg).status == Undefined
  {
    SelectionSound(b.queue, counts, limits, strategy, id);
    hide Follows, Queue.Balanced, Trusted, Shelved;
    var i: nat :| i < |b.queue| && b.queue[i].id == id.nzb && HasArticle(b.queue[i], id.file, id.seg) && NzbOpen(b.queue[i])
                  && ArticleAt(b.queue[i], id.file, id.seg).status == Undefined;
    IndexUnique(b.queue, i);
    var n := b.queue[i];
    assert Placed(n, b.exits);
    assert id in active ==> Flying(n, id);
  }

  lemma LaunchKeeps(b: Books, active: Flights, counts: Counts, i: nat, id: ArticleId, flight: Flight)
    requires Carried(b.queue, active.Keys, b.next, b.stalled) && Grounded(b.exits, active) && Completed(id.nzb) !in b.exits
    requires Sound(b) && Tracks(b.queue, active, b.next) && CountsAgree(counts, active) && id !in active
    requires i < |b.queue| && b.queue[i].id == id.nzb && HasArticle(b.queue[i], id.file, id.seg)
    requires ArticleAt(b.queue[i], id.file, id.seg).status == Undefined
    ensures var after := b.queue[i := Relabel(b.queue[i], id.file, id.seg, Running)];
            && Sound(b.(queue := after)) && Tracks(after, active[id := flight], b.next)
            && CountsAgree(Increment(counts, (id.nzb, id.file)), active[id := flight])
            && Carried(after, active[id := flight].Keys, b.next, b.stalled)
            && Grounded(b.exits, active[id := flight])
  {
    var n := b.queue[i];
    CarriedLaunch(b.queue, active.Keys, b.next, b.stalled, i, id);
    assert active[id := flight].Keys == active.Keys + {id};
    SoundIdentified(b);
    assert Queue.Balanced(n) && Trusted(n) && Placed(n, b.exits) && n.id < b.next;
    hide Sound, Queue.Balanced, Trusted, Placed, CountsAgree, Tracks, Carried;
    RelabelBalanced(n, id.file, id.seg, Running);
    RelabelTrusted(n, id.file, id.seg, Running);
    RelabelPlaced(n, id.file, id.seg, Running, b.exits);
    ReplaceSound(b, i, Relabel(n, id.file, id.seg, Running));
    LaunchTracks(b.queue, active, b.next, i, id, flight);
    LaunchCounts(counts, active, id, flight);
  }

  /** With capacity a server is selected, and both charging and refusing it keep the slots right. */
  lemma LaunchSlot(slots: seq<Slot>, active: Flights, id: ArticleId, size: nat)
    requires AllAgree(slots, active) && Available(slots) > 0 && id !in active
    ensures Select(slots).Some?
    ensures var k := SlotOf(slots, Select(slots).value);
            && k < |slots|
            && var launched := slots[k := Assign(slots[k], size)];
            && AllAgree(launched, active[id := Flight(Select(slots), size)])
            && MaxConnections(launched) == MaxConnections(slots)
            && SlotOf(launched, Select(slots).value) == k
            && var landed := launched[k := Complete(launched[k], size, 0.0, false)];
            && landed == slots[k := slots[k].(failed := slots[k].failed + 1)]
            && AllAgree(landed, active) && MaxConnections(landed) == MaxConnections(slots)
  {
    CapacityMeansSelection(slots);
    SelectIsFair(slots);
    hide Select, Available, Agrees;
    var c: nat :| Chosen(slots, c) && slots[c].server == Select(slots).value;
    var k := SlotOf(slots, Select(slots).value);
    assert k == c;
    LaunchAgrees(slots, active, k, id, size);
    var launched := slots[k := Assign(slots[k], size)];
    RollBack(slots[k], size, 0.0);
    SameConnections(slots, launched);
    var landed := launched[k := Complete(launched[k], size, 0.0, false)];
    SameConnections(slots, landed);
    SameLoad(slots, landed, active);
  }

  lemma NoServers(size: nat)
    ensures ServerFor(None) == None && Charged(None, size) == None && Refused(None) == None
  {
  }

  /** Charging and refusing change one slot, the selected server's. */
  lemma ChargedSlot(slots: seq<Slot>, size: nat)
    requires Select(slots).Some? && SlotOf(slots, Select(slots).value) < |slots|
    ensures var k := SlotOf(slots, Select(slots).value);
            && ServerFor(Some(slots)) == Select(slots)
            && Charged(Some(slots), size) == Some(slots[k := Assign(slots[k], size)])
            && Refused(Some(slots)) == Some(slots[k := slots[k].(failed := slots[k].failed + 1)])
  {
    hide Select, SlotOf, Assign;
  }

  lemma RunStarts(d: Desk, setup: Setup)
    ensures RunFills(d, setup, [], []) && AfterRun(d, setup, [], []) == d && NeverRefused(d, setup, [], [])
  {
  }

  lemma RunGoesOn(d: Desk, setup: Setup, events: seq<Event>, fills: seq<seq<ArticleId>>, e: Event, sent: seq<ArticleId>)
    requires |fills| == |events| && RunFills(d, setup, events, fills)
    requires Fills(Handled(AfterRun(d, setup, events, fills), e, setup.notifies), setup, sent)
    ensures RunFills(d, setup, events + [e], fills + [sent])
    ensures AfterRun(d, setup, events + [e], fills + [sent])
         == Filled(Handled(AfterRun(d, setup, events, fills), e, setup.notifies), setup, sent)
    ensures var handled := Handled(AfterRun(d, setup, events, fills), e, setup.notifies);
            NeverRefused(d, setup, events + [e], fills + [sent]) <==>
              NeverRefused(d, setup, events, fills) && Filled(handled, setup, sent) == Launches(handled, sent)
  {
    assert (events + [e])[..|events|] == events && (fills + [sent])[..|fills|] == fills;
    hide Fills, Filled, Handled, Launches;
  }

  lemma StoppedFill(d: Desk, setup: Setup, sent: seq<ArticleId>)
    requires d.shutdown
    ensures Filled(d, setup, sent) == Launches(d, sent)
  {
  }

  /** Every other command is its effect on the books. */
  lemma EffectOnly(d: Desk, c: Command, notifies: bool)
    ensures !c.DownloadComplete? && !c.PauseAll? && !c.ResumeAll? && !c.SetStrategy? && !c.Shutdown? ==>
              Commanded(d, c, notifies) == d.(books := Effect(d.books, c, notifies))
  {
  }

  lemma StopsOnly(e: Event, d: Desk)
    ensures e == Incoming(Command.Shutdown) ==> Sent(d, e.command)
  {
  }

  /** One more article, sendable in the state the others left. */
  lemma SentOne(d: Desk, setup: Setup, sent: seq<ArticleId>, id: ArticleId)
    requires SentInTurn(d, setup, sent) && Dispatched(d, Launches(d, sent), sent)
    requires var e := Launches(d, sent);
             && |e.active| < Capacity(e.slots, setup.limits) && Sendable(e, setup, id)
             && IsOpen(e.books.queue, id) && id !in e.active
    ensures var e, next := Launches(d, sent), Launched(Launches(d, sent), id);
            && SentInTurn(d, setup, sent + [id]) && Launches(d, sent + [id]) == next
            && Dispatched(d, next, sent + [id]) && |next.active| == |e.active| + 1
  {
    assert (sent + [id])[..|sent|] == sent;
    LaunchedSends(Launches(d, sent), id);
    hide Launched, Launches, Sendable, IsOpen, Dispatched;
    DispatchedMore(d, Launches(d, sent), Launched(Launches(d, sent), id), sent, id);
  }

  lemma LaunchedSends(d: Desk, id: ArticleId)
    requires IsOpen(d.books.queue, id) && id !in d.active
    ensures var e := Launched(d, id);
            && e.active.Keys == d.active.Keys + {id} && |e.active| == |d.active| + 1
            && |e.outbox| == |d.outbox| + 1 && d.outbox <= e.outbox && e.outbox[|d.outbox|].id == id
  {
    hide Relabel, Charged, Increment;
  }

  lemma DispatchedMore(d: Desk, e: Desk, next: Desk, sent: seq<ArticleId>, id: ArticleId)
    requires Dispatched(d, e, sent) && id !in e.active && next.active.Keys == e.active.Keys + {id}
    requires |next.outbox| == |e.outbox| + 1 && e.outbox <= next.outbox && next.outbox[|e.outbox|].id == id
    ensures Dispatched(d, next, sent + [id])
  {
    var more := sent + [id];
    forall k | 0 <= k < |more|
      ensures next.outbox[|d.outbox| + k].id == more[k] && more[k] in next.active.Keys && more[k] !in d.active.Keys
    {
    }
    assert forall k :: 0 <= k < |sent| ==> sent[k] in e.active.Keys;
  }

  lemma NothingSent(d: Desk, setup: Setup)
    ensures SentInTurn(d, setup, []) && Launches(d, []) == d && Dispatched(d, d, [])
    ensures d.paused || d.shutdown ==> Fills(d, setup, []) && Filled(d, setup, []) == d
  {
  }

  lemma SameSent(d: Desk, e: Desk, f: Desk, sent: seq<ArticleId>)
    requires Dispatched(d, e, sent) && f.outbox == e.outbox && f.active == e.active
    ensures Dispatched(d, f, sent)
  {
  }

  /** How a refill ends: exhausted, or refused by a full channel. */
  lemma RefillStops(d: Desk, setup: Setup, sent: seq<ArticleId>)
    requires SentInTurn(d, setup, sent) && !d.paused && !d.shutdown
    ensures var e := Launches(d, sent);
            && (Exhausted(e, setup) ==> Fills(d, setup, sent) && Filled(d, setup, sent) == e)
            && (!Exhausted(e, setup) && |e.outbox| >= setup.room ==>
                  Fills(d, setup, sent) && Filled(d, setup, sent) == e.(slots := Refused(e.slots)))
  {
    hide Launches, SentInTurn, Exhausted, Refused;
  }

  class QueueCoordinator {
    const limits: Limits
    const room: nat
    const notifies: bool
    const scheduler: ServerScheduler?

    var queue: seq<Nzb>
    var history: seq<Nzb>
    var nextNzbId: nat
    var active: Flights
    var perFile: Counts
    var outbox: seq<Assignment>
    var paused: bool
    var shutdown: bool
    var strategy: Strategy

    ghost var exits: seq<Exit>
    ghost var stalled: set<nat>

    ghost function View(): Books
      reads this
    {
      Books(queue, history, nextNzbId, exits, stalled)
    }

    /** The whole state as a value. */
    ghost function Now(): Desk
      reads this, scheduler
    {
      Desk(View(), active, perFile, outbox, if scheduler == null then None else Some(scheduler.slots),
           paused, strategy, shutdown)
    }

    ghost function Configured(): Setup
      reads this
    {
      Setup(limits, room, notifies)
    }

    /** The active map, the per-file counters, the server slots and the queue agree. */
    ghost predicate InStep()
      reads this, scheduler
    {
      && Tracks(queue, active, nextNzbId)
      && Grounded(exits, active)
      && CountsAgree(perFile, active)
      && Carried(queue, active.Keys, nextNzbId, stalled)
      && (scheduler != null ==> AllAgree(scheduler.slots, active))
    }

    ghost predicate Valid()
      reads this, scheduler
    {
      Sound(View()) && InStep()
    }

    /** The channel is made for the configured connections, four times over and for at least 64. */
    constructor (limits: Limits, notifies: bool, scheduler: ServerScheduler?)
      requires scheduler != null ==> DistinctServers(scheduler.slots)
      requires scheduler != null ==> forall i :: 0 <= i < |scheduler.slots| ==>
                 scheduler.slots[i].active == 0 && scheduler.slots[i].pending == 0
      ensures Valid() && !shutdown && !paused && strategy == Sequential
      ensures View() == Books([], [], 1, [], {}) && active == map[] && perFile == map[] && outbox == []
      ensures Boxed(Now()) && room == ChannelRoom(limits.connections)
      ensures Roomy() <==> (scheduler != null ==> MaxConnections(scheduler.slots) <= room)
      ensures this.limits == limits && this.notifies == notifies && this.scheduler == scheduler
    {
      this.limits, this.room, this.notifies, this.scheduler := limits, ChannelRoom(limits.connections), notifies, scheduler;
      queue, history, nextNzbId, active, perFile, outbox := [], [], 1, map[], map[], [];
      paused, shutdown, strategy := false, false, Sequential;
      exits, stalled := [], {};
      new;
      assert forall n: nat, f: nat :: OfFile(map[], n, f) == {};
      assert forall s: nat :: OnServer(map[], s) == map[];
    }

    /** Takes over a saved queue and history, as a restart rebuilds them. */
    method SeedState(queue: seq<Nzb>, history: seq<Nzb>, next: nat, paused: bool)
      requires Valid() && active == map[]
      requires Identified(queue, history, next) && AllBalanced(queue) && AllBalanced(history)
      requires AllTrusted(queue) && AllShelved(history)
      modifies this`queue, this`history, this`nextNzbId, this`paused, this`exits, this`stalled
      ensures Valid() && View() == Books(queue, history, next, [], StalledIds(queue)) && this.paused == paused
    {
      RestoredSound(queue, history, next);
      RestoredCarried(queue, active.Keys, next);
      hide Sound, CountsAgree, Carried, AllAgree, Identified, AllBalanced;
      this.queue, this.history, nextNzbId, this.paused := queue, history, next, paused;
      exits, stalled := [], StalledIds(queue);
    }

    // ---- Changing flags ----

    /** Replaces the i-th NZB by one that differs in flags only. */
    method SetFlags(i: nat, m: Nzb)
      requires i < |queue| && Cosmetic(queue[i], m)
      modifies this`queue
      ensures queue == old(queue)[i := m]
      ensures old(Sound(View())) ==> Sound(View())
      ensures old(InStep()) ==> InStep()
    {
      hide Sound, CountsAgree, Carried, AllAgree, Tracks;
      if Sound(View()) {
        CosmeticSound(View(), i, m);
      }
      if InStep() {
        CosmeticTracks(queue, active, nextNzbId, i, m);
        CarriedCosmetic(queue, active.Keys, nextNzbId, stalled, i, m);
      }
      queue := queue[i := m];
    }

    method PauseNzb(id: nat, pause: bool)
      requires Valid()
      modifies this`queue
      ensures Valid()
      ensures queue == WithPause(old(queue), id, pause)
    {
      var i := IndexOf(queue, id);
      if i < |queue| {
        SetFlags(i, queue[i].(paused := pause));
      }
    }

    method SetPriority(id: nat, priority: Priority)
      requires Valid()
      modifies this`queue
      ensures Valid()
      ensures queue == WithPriority(old(queue), id, priority)
    {
      var i := IndexOf(queue, id);
      if i < |queue| {
        SetFlags(i, queue[i].(priority := priority));
      }
    }

    method SetLabels(id: nat, action: EditAction)
      requires Valid()
      modifies this`queue
      ensures Valid()
      ensures queue == WithLabels(old(queue), id, action)
    {
      var i := IndexOf(queue, id);
      if i < |queue| {
        SetFlags(i, queue[i].(labels := Edit(queue[i].labels, action)));
      }
    }

    method PauseFile(id: nat, f: nat, pause: bool)
      requires Valid()
      modifies this`queue
      ensures Valid()
      ensures queue == WithFilePause(old(queue), id, f, pause)
    {
      var i := IndexOf(queue, id);
      if i < |queue| && f < |queue[i].files| {
        SetFlags(i, WithFile(queue[i], f, queue[i].files[f].(paused := pause)));
      }
    }

    method PauseAll()
      requires Valid()
      modifies this`paused
      ensures Valid() && paused
    {
      paused := true;
    }

    method ResumeAll()
      requires Valid()
      modifies this`paused, this`queue
      ensures Valid() && !paused && queue == AllResumed(old(queue))
      ensures View() == Effect(old(View()), Command.ResumeAll, notifies)
    {
      hide Sound, Tracks, CountsAgree, Carried, AllAgree, Grounded;
      paused := false;
      for i := 0 to |queue|
        invariant |queue| == |old(queue)| && Valid() && !paused
        invariant forall j :: 0 <= j < |queue| ==> queue[j] == if j < i then old(queue[j]).(paused := false) else old(queue[j])
      {
        SetFlags(i, queue[i].(paused := false));
      }
    }

    /** Lets the repair files of one NZB go ahead. */
    method UnpauseParFiles(id: nat)
      requires Valid()
      modifies this`queue
      ensures Valid() && queue == WithParResumed(old(queue), id)
    {
      hide Sound, InStep;
      var i := IndexOf(queue, id);
      if i < |queue| {
        for f := 0 to |queue[i].files|
          invariant Valid() && |queue| == |old(queue)| && queue == old(queue)[i := queue[i]]
          invariant ParUnpaused(old(queue[i]), queue[i], f)
        {
          if queue[i].files[f].paused && queue[i].files[f].par {
            UnpauseOne(old(queue[i]), queue[i], f);
            SetFlags(i, WithFile(queue[i], f, queue[i].files[f].(paused := false)));
          }
        }
        AllParUnpaused(old(queue[i]), queue[i]);
      }
    }

    method SetStrategy(strategy: Strategy)
      requires Valid()
      modifies this`strategy
      ensures Valid() && this.strategy == strategy
    {
      this.strategy := strategy;
    }

    /** Marks an NZB as being post-processed. */
    method UpdatePostStage(id: nat)
      requires Valid()
      modifies this`queue
      ensures Valid()
      ensures queue == WithPost(old(queue), id)
    {
      var i := IndexOf(queue, id);
      if i < |queue| {
        SetFlags(i, queue[i].(post := true));
      }
    }

    // ---- Removing, moving, archiving ----

    method RemoveNzb(id: nat) returns (r: Result<()>)
      requires Valid()
      modifies this`queue
      ensures Valid()
      ensures r.Ok? <==> exists i :: 0 <= i < |old(queue)| && old(queue[i]).id == id
      ensures r.Err? ==> r.error == NzbNotFound(id)
      ensures queue == WithoutId(old(queue), id)
    {
      var i := IndexOf(queue, id);
      if i == |queue| {
        return Err(NzbNotFound(id));
      }
      RemoveSound(View(), i);
      WithoutTracks(queue, active, nextNzbId, i);
      CarriedWithout(queue, active.Keys, nextNzbId, stalled, i);
      hide Sound, Tracks, CountsAgree, Carried, AllAgree, Grounded;
      queue := Without(queue, i);
      return Ok(());
    }

    /** Only a successful move keeps every entry; a missing or self anchor loses the moved one. */
    method MoveNzb(id: nat, position: Position) returns (r: Result<()>)
      requires Valid()
      modifies this`queue
      ensures Valid()
      ensures r == Err(NzbNotFound(id)) <==> IndexOf(old(queue), id) == |old(queue)|
      ensures r == Err(NzbNotFound(id)) ==> queue == old(queue)
      ensures r.Ok? ==> multiset(queue) == multiset(old(queue))
      ensures r.Err? && r != Err(NzbNotFound(id)) ==>
                r == Err(InvalidMove) && queue == Without(old(queue), IndexOf(old(queue), id))
      ensures (queue, r.Ok?) == Moved(old(queue), id, position)
    {
      hide Sound, Tracks, CountsAgree, Carried, AllAgree, Grounded, Inserted, Landing;
      var i := IndexOf(queue, id);
      if i == |queue| {
        return Err(NzbNotFound(id));
      }
      var n := queue[i];
      var rest := Without(queue, i);
      MoveKeeps(View(), active, i, Landing(rest, i, position));
      var k := Landing(rest, i, position);
      queue := rest;
      if k.None? {
        return Err(InvalidMove);
      }
      queue := Inserted(rest, k.value, n);
      return Ok(());
    }

    /** Post-processing is over: the NZB leaves the queue for the history. */
    method FinishPostProcessing(id: nat)
      requires Valid()
      modifies this`queue, this`history
      ensures View() == Effect(old(View()), Command.FinishPostProcessing(id), notifies) == Archived(old(View()), id)
      ensures Expected(old(queue), active, Command.FinishPostProcessing(id)) ==> Valid()
    {
      hide Sound, Tracks, CountsAgree, Carried, AllAgree, Grounded, AllCompleted, Without;
      var i := IndexOf(queue, id);
      if i < |queue| {
        var n := queue[i].(post := false);
        if AllCompleted(queue[i]) {
          FinishedKeeps(View(), active, i);
        }
        queue := Without(queue, i);
        history := history + [n];
      }
    }

    // ---- Adding and bringing back ----

    /** An id is spent even when the NZB turns out to be a duplicate. */
    method AddNzb(parsed: seq<ParsedFile>, labels: Labels, priority: Priority, paused: bool, top: bool)
      returns (r: Result<nat>)
      requires Valid()
      modifies this`queue, this`nextNzbId, this`stalled
      ensures Valid() && nextNzbId == old(nextNzbId) + 1
      ensures r.Err? <==> DuplicateOf(old(queue), old(history), labels.dupKey, labels.dupMode == ForceMode).Some?
      ensures r.Err? ==> queue == old(queue) && stalled == old(stalled) && r.error.Duplicate?
      ensures r.Ok? ==> r.value == old(nextNzbId)
                        && View() == Enter(old(View()), NewNzb(r.value, parsed, labels, priority, paused), top)
    {
      hide Sound, Tracks, CountsAgree, Carried, AllAgree, Grounded, Stalling, Settled, Startable,
           Doomed, FileBalanced, FilesTally, CriticalHealth, DuplicateOf;
      var id := nextNzbId;
      var duplicate := DuplicateOf(queue, history, labels.dupKey, labels.dupMode == ForceMode);
      var files, tally, par := BuildFiles(parsed);
      var n := Nzb(id, labels, priority, paused, false, false, 1000,
                   CriticalHealth(tally.articles, par.size, 0), par, files, tally);
      assert files == NewFiles(parsed);
      NewNzbStarts(id, parsed, labels, priority, paused);
      assert n == NewNzb(id, parsed, labels, priority, paused);
      AddKeeps(View(), active, n, top);
      nextNzbId := nextNzbId + 1;
      if duplicate.Some? {
        return Err(Duplicate(duplicate.value));
      }
      queue := if top then [n] + queue else queue + [n];
      stalled := Stalling(n, stalled);
      return Ok(id);
    }

    /** Back into the queue as it was, under a new id. */
    method HistoryReturn(id: nat) returns (r: Result<nat>)
      requires Valid()
      modifies this`queue, this`history, this`nextNzbId, this`stalled
      ensures Valid()
      ensures var k := IndexOf(old(history), id);
              if k == |old(history)| then r == Err(NzbNotFound(id)) && View() == old(View())
              else r == Ok(old(nextNzbId)) && View() == Returned(old(View()), k)
    {
      hide Sound, Tracks, CountsAgree, Carried, AllAgree, Grounded, Stalling, Without;
      var k := IndexOf(history, id);
      if k == |history| {
        return Err(NzbNotFound(id));
      }
      var n := history[k].(id := nextNzbId, paused := false);
      ReturnKeeps(View(), active, k);
      history := Without(history, k);
      nextNzbId := nextNzbId + 1;
      queue := queue + [n];
      stalled := Stalling(n, stalled);
      return Ok(n.id);
    }

    /** Back into the queue with nothing downloaded, under a new id. */
    method HistoryRedownload(id: nat) returns (r: Result<nat>)
      requires Valid()
      modifies this`queue, this`history, this`nextNzbId, this`stalled
      ensures Valid()
      ensures var k := IndexOf(old(history), id);
              if k == |old(history)| then r == Err(NzbNotFound(id)) && View() == old(View())
              else r == Ok(old(nextNzbId)) && View() == Redownloaded(old(View()), k)
    {
      hide Sound, Tracks, CountsAgree, Carried, AllAgree, Grounded, Stalling, Reset, Without;
      var k := IndexOf(history, id);
      if k == |history| {
        return Err(NzbNotFound(id));
      }
      var n := Reset(history[k], nextNzbId);
      ReturnKeeps(View(), active, k);
      history := Without(history, k);
      nextNzbId := nextNzbId + 1;
      queue := queue + [n];
      stalled := Stalling(n, stalled);
      return Ok(n.id);
    }

    method HistoryDelete(id: nat) returns (r: Result<()>)
      requires Valid()
      modifies this`history
      ensures Valid()
      ensures history == WithoutId(old(history), id)
      ensures r == if IndexOf(old(history), id) == |old(history)| then Err(NzbNotFound(id)) else Ok(())
    {
      var k := IndexOf(history, id);
      if k == |history| {
        return Err(NzbNotFound(id));
      }
      ForgetSound(View(), k);
      hide Sound, Tracks, CountsAgree, Carried, AllAgree, Grounded;
      history := Without(history, k);
      return Ok(());
    }

    // ---- Completion ----

    method UpdateHealth(id: nat)
      modifies this`queue
      ensures var i := IndexOf(old(queue), id);
              queue == if i < |old(queue)| then old(queue)[i := WithHealth(old(queue)[i])] else old(queue)
    {
      var i := IndexOf(queue, id);
      if i < |queue| {
        queue := queue[i := WithHealth(queue[i])];
      }
    }

    method CheckHealthFailure(id: nat)
      modifies this`queue, this`history, this`exits
      ensures var i := IndexOf(old(queue), id);
              View() == if i < |old(queue)| && Hopeless(old(queue)[i]) then GiveUp(old(View()), i) else old(View())
    {
      var i := IndexOf(queue, id);
      if i < |queue| && Hopeless(queue[i]) {
        var n := queue[i];
        queue := Without(queue, i);
        history := history + [n];
        exits := exits + [GivenUp(n.id)];
      }
    }

    method CheckFileCompletion(id: nat, f: nat)
      modifies this`queue
      ensures var i := IndexOf(old(queue), id);
              queue == if i < |old(queue)| then old(queue)[i := CloseFile(old(queue)[i], f)] else old(queue)
    {
      var i := IndexOf(queue, id);
      assert i < |queue| ==> queue == queue[i := queue[i]];
      if i < |queue| && f < |queue[i].files| {
        var file := queue[i].files[f];
        if !file.completed && AllTerminal(file) {
          queue := queue[i := WithFile(queue[i], f, file.(completed := true))];
        }
      }
    }

    method CheckNzbCompletion(id: nat)
      modifies this`queue, this`history, this`exits
      ensures var i := IndexOf(old(queue), id);
              View() == if i < |old(queue)| then Finish(old(View()), i, notifies) else old(View())
    {
      var i := IndexOf(queue, id);
      if i == |queue| || !AllCompleted(queue[i]) {
        return;
      }
      queue := queue[i := queue[i].(post := true)];
      exits := exits + [Completed(id)];
      if !notifies {
        var n := queue[i];
        queue := Without(queue, i);
        history := history + [n];
      }
    }

    /** Straight to post-processing, under a new id. */
    method HistoryProcess(id: nat) returns (r: Result<nat>)
      requires Valid()
      modifies this`queue, this`history, this`nextNzbId, this`stalled, this`exits
      ensures Valid()
      ensures var k := IndexOf(old(history), id);
              if k == |old(history)| then r == Err(NzbNotFound(id)) && View() == old(View())
              else r == Ok(old(nextNzbId)) && View() == Processed(old(View()), k, notifies)
    {
      hide Sound, Tracks, CountsAgree, Carried, AllAgree, Grounded, Stalling, Without, AllCompleted, Finish;
      var k := IndexOf(history, id);
      if k == |history| {
        return Err(NzbNotFound(id));
      }
      var e := history[k];
      var n := e.(id := nextNzbId, paused := false, reprocess := true, files := CompleteFiles(e.files));
      assert n == Unread(View(), k);
      ProcessKeeps(View(), active, k, notifies);
      ProcessCarried(View(), active.Keys, k, notifies);
      history := Without(history, k);
      nextNzbId := nextNzbId + 1;
      queue := queue + [n];
      stalled := Stalling(n, stalled);
      CheckNzbCompletion(n.id);
      return Ok(n.id);
    }

    // ---- Download reports ----

    /** The article's server slot gets its load back. */
    method ReleaseSlot(r: Report, flight: Option<Flight>)
      modifies scheduler
      ensures scheduler != null ==> scheduler.slots == Released(old(scheduler.slots), r, flight)
    {
      if scheduler != null {
        var server := if r.server.Some? then r.server
                      else if flight.Some? then flight.value.server else None;
        var size := if flight.Some? then flight.value.size else 0;
        if server.Some? {
          scheduler.CompleteOnServer(server.value, size, r.seconds, r.outcome == Success);
        }
      }
    }

    /** Takes the article out of the active map, the per-file counters and its server slot. */
    method Land(r: Report)
      modifies this`active, this`perFile, scheduler
      ensures Now() == Landed(old(Now()), r) && active == old(active) - {r.id}
      ensures r.id in old(active) && old(CountsAgree(perFile, active)) ==> CountsAgree(perFile, active)
      ensures r.id in old(active) && (r.server.Some? ==> r.server == old(active)[r.id].server) ==>
                scheduler != null && old(AllAgree(scheduler.slots, active)) ==> AllAgree(scheduler.slots, active)
    {
      if CountsAgree(perFile, active) && r.id in active {
        LandCounts(perFile, active, r.id);
      }
      if scheduler != null && r.id in active && AllAgree(scheduler.slots, active) {
        LandSlot(scheduler.slots, active, r.id, r.seconds, r.outcome == Success);
      }
      hide CountsAgree, AllAgree, Decrement, Complete;
      perFile := Decrement(perFile, (r.id.nzb, r.id.file));
      var flight := FlightOf(active, r.id);
      active := active - {r.id};
      ReleaseSlot(r, flight);
    }

    /**
     * Takes an article out of flight and books its outcome. Whatever is reported, exactly this
     * happens; a report of an article in flight from its own server keeps the coordinator valid.
     */
    method HandleDownloadComplete(r: Report)
      requires Valid()
      modifies this`queue, this`history, this`exits, this`active, this`perFile, this`paused, scheduler
      ensures Now() == Commanded(old(Now()), DownloadComplete(r), notifies)
      ensures Expected(old(queue), old(active), DownloadComplete(r)) ==> Valid()
    {
      hide Sound, Identified, AllTrusted, Tracks, CountsAgree, Carried, AllAgree, Grounded, Reported, Pauses, IndexOf, Landed;
      SoundIdentified(View());
      if r.id in active {
        ReportKeeps(View(), active, r, notifies);
      }
      Land(r);
      Book(r);
    }

    /** The checks that follow a booked article. */
    method Judge(id: nat, f: nat)
      requires Identified(queue, history, nextNzbId)
      modifies this`queue, this`history, this`exits
      ensures var i := IndexOf(old(queue), id);
              View() == if i < |old(queue)| then Judged(old(View()), i, f, notifies) else old(View())
    {
      hide Finish, GiveUp, CloseFile, WithHealth, Hopeless, Identified, IndexOf, Without;
      ghost var i := IndexOf(queue, id);
      if i < |queue| {
        IndexStable(queue, history, nextNzbId, i, WithHealth(queue[i]));
        var m := WithHealth(queue[i]);
        IndexStable(queue[i := m], history, nextNzbId, i, CloseFile(m, f));
        JudgedByHealth(View(), i, f, notifies);
      }
      UpdateHealth(id);
      CheckHealthFailure(id);
      CheckFileCompletion(id, f);
      CheckNzbCompletion(id);
    }

    method Book(r: Report)
      requires Identified(queue, history, nextNzbId)
      modifies this`queue, this`history, this`exits, this`paused
      ensures View() == Reported(old(View()), r.id, r.outcome, notifies)
      ensures paused == (old(paused) || Pauses(old(queue), r))
    {
      hide Judged, Received, Missed, Strayed, WithHealth, Identified;
      var i := IndexOf(queue, r.id.nzb);
      if i < |queue| {
        var n := queue[i];
        var there := HasArticle(n, r.id.file, r.id.seg);
        if there && Terminal(ArticleAt(n, r.id.file, r.id.seg).status) {
          return;
        }
        match r.outcome {
          case Success =>
            queue := queue[i := if there then Received(n, r.id.file, r.id.seg) else Strayed(n, r.id.file, true)];
          case Failure =>
            queue := queue[i := if there then Missed(n, r.id.file, r.id.seg) else Strayed(n, r.id.file, false)];
          case Blocked =>
            if there {
              queue := queue[i := Relabel(n, r.id.file, r.id.seg, Undefined)];
            }
            paused := true;
            return;
        }
        IndexStable(old(queue), history, nextNzbId, i, queue[i]);
      }
      Judge(r.id.nzb, r.id.file);
    }

    // ---- Dispatching ----

    /**
     * With nothing in flight and nothing to select, every NZB that entered startable is out of the
     * way: in post-processing, paused, or with a paused file.
     */
    lemma Quiescent()
      requires Valid() && active == map[] && NothingToSelect(Now(), limits) && limits.connections > 0 && limits.perFile > 0
      ensures forall i :: 0 <= i < |queue| && queue[i].id !in stalled ==>
                !NzbOpen(queue[i]) || exists f :: 0 <= f < |queue[i].files| && !FileOpen(queue[i], f)
    {
      forall i | 0 <= i < |queue| && queue[i].id !in stalled
        ensures !NzbOpen(queue[i]) || exists f :: 0 <= f < |queue[i].files| && !FileOpen(queue[i], f)
      {
        NothingLeftBehind(queue, perFile, limits, strategy, nextNzbId, stalled, i);
      }
    }

    /** Selects the next article, reserves a server for it and sends it off, if the channel has room. */
    method DispatchOne() returns (r: Option<ArticleId>)
      requires Valid()
      modifies this`queue, this`active, this`perFile, this`outbox, scheduler
      ensures Valid() && Capacity(Now().slots, limits) == old(Capacity(Now().slots, limits))
      ensures r.Some? ==>
                && Sendable(old(Now()), Configured(), r.value) && Now() == Launched(old(Now()), r.value)
                && r.value !in old(active) && IsOpen(old(queue), r.value)
      ensures r.None? ==>
                if old(ServersFull(Now().slots) || NothingToSelect(Now(), limits)) then Now() == old(Now())
                else |outbox| >= room && Now() == old(Now()).(slots := Refused(old(Now()).slots))
    {
      hide Sound, Tracks, CountsAgree, Carried, AllAgree, Grounded, Follows, IsOpen, Select, Available, MaxConnections, Assign,
           Complete, Increment, Charged, Refused, SlotOf, Relabel, ServerFor;
      if scheduler != null && Available(scheduler.slots) == 0 {
        return None;
      }
      var next := NextArticle(queue, perFile, limits, strategy);
      if next.None? {
        return None;
      }
      var id := next.value;
      if NothingToSelect(Now(), limits) {
        FollowsUnique(queue, perFile, limits, strategy, None, next);
      }
      LaunchFresh(View(), active, perFile, limits, strategy, id);
      var i := IndexOf(queue, id.nzb);
      var size := ArticleAt(queue[i], id.file, id.seg).size;
      var server: Option<nat> := None;
      NoServers(size);
      if scheduler != null {
        LaunchSlot(scheduler.slots, active, id, size);
        ChargedSlot(scheduler.slots, size);
        server := Select(scheduler.slots);
        if server.Some? {
          scheduler.AssignToServer(server.value, size);
        }
      }
      if |outbox| < room {
        LaunchKeeps(View(), active, perFile, i, id, Flight(server, size));
        outbox := outbox + [Assignment(id, size, server)];
        queue := queue[i := Relabel(queue[i], id.file, id.seg, Running)];
        perFile := Increment(perFile, (id.nzb, id.file));
        active := active[id := Flight(server, size)];
        return Some(id);
      }
      if scheduler != null && server.Some? {
        scheduler.CompleteOnServer(server.value, size, 0.0, false);
      }
      return None;
    }

    /**
     * One refill: exactly the articles that can be sent, one after another, are dispatched, and
     * nothing else changes but the failure count of a server refused by a full channel.
     */
    method TryFillDownloadSlots() returns (ghost sent: seq<ArticleId>)
      requires shutdown || Valid()
      modifies this`queue, this`active, this`perFile, this`outbox, scheduler
      ensures old(Valid()) ==> Valid()
      ensures shutdown ==> Now() == old(Now())
      ensures Fills(old(Now()), Configured(), sent) && Now() == Filled(old(Now()), Configured(), sent)
      ensures Dispatched(old(Now()), Now(), sent)
      ensures old(Boxed(Now())) ==> Boxed(Now())
      ensures old(Roomy()) ==> Now() == Launches(old(Now()), sent) && Roomy()
    {
      hide Sound, InStep, ServersFull, NothingToSelect, Sendable, IsOpen, Launched, Select, Dispatched, Refused, Fills, Filled,
           Launches, SentInTurn, MaxConnections, Boxed;
      ghost var start := Now();
      NothingSent(start, Configured());
      sent := [];
      if paused || shutdown {
        return;
      }
      var slots := if scheduler != null then MaxConnections(scheduler.slots) else limits.connections;
      var more := true;
      while more && |active| < slots
        invariant Valid() && Capacity(Now().slots, limits) == slots && !paused && !shutdown
        invariant SentInTurn(old(Now()), Configured(), sent)
        invariant more ==> Now() == Launches(old(Now()), sent)
        invariant !more ==> Fills(old(Now()), Configured(), sent) && Now() == Filled(old(Now()), Configured(), sent)
        invariant Dispatched(old(Now()), Now(), sent) && Dispatched(old(Now()), Launches(old(Now()), sent), sent)
        decreases slots - |active|, more
      {
        ghost var before := Now();
        var id := DispatchOne();
        if id.Some? {
          SentOne(old(Now()), Configured(), sent, id.value);
          sent := sent + [id.value];
        } else {
          RefillStops(old(Now()), Configured(), sent);
          SameSent(old(Now()), before, Now(), sent);
          more := false;
        }
      }
      if more {
        RefillStops(old(Now()), Configured(), sent);
      }
      if Boxed(start) {
        DispatchedBoxed(start, Now(), sent);
        DispatchedBoxed(start, Launches(start, sent), sent);
        FilledCapacity(start, Configured(), sent);
        if Capacity(start.slots, limits) <= room {
          RoomSuffices(start, Configured(), sent);
        }
      }
    }

    /** The channel holds nothing but flights, and has room for one on each connection. */
    ghost predicate Roomy()
      reads this, scheduler
    {
      Boxed(Now()) && Capacity(Now().slots, limits) <= room
    }

    /** A worker takes the oldest assignment off the channel. */
    method TakeAssignment() returns (a: Assignment)
      requires Valid() && outbox != []
      modifies this`outbox
      ensures Valid() && old(outbox) == [a] + outbox
    {
      a := outbox[0];
      outbox := outbox[1..];
    }

    // ---- Commands ----

    /** Edits one NZB after another; a move that fails abandons the rest. */
    method ApplyEdit(action: EditAction, ids: seq<nat>) returns (r: Result<()>)
      requires Valid()
      modifies this`queue
      ensures Valid()
      ensures (queue, r.Ok?) == Edited(old(queue), action, ids)
    {
      hide Sound, InStep, Moved, WithPause, WithoutId, WithPriority, WithLabels;
      r := Ok(());
      for i := 0 to |ids|
        invariant Valid() && r.Ok?
        invariant Edited(old(queue), action, ids) == Edited(queue, action, ids[i..])
      {
        assert ids[i..][0] == ids[i] && ids[i..][1..] == ids[i + 1..];
        match action {
          case Move(position) =>
            r := MoveNzb(ids[i], position);
            if r.Err? {
              return;
            }
          case Pause =>
            PauseNzb(ids[i], true);
          case Resume =>
            PauseNzb(ids[i], false);
          case Delete =>
            var removed := RemoveNzb(ids[i]);
          case SetPriority(priority) =>
            SetPriority(ids[i], priority);
          case Merge =>
          case Split =>
          case _ =>
            SetLabels(ids[i], action);
        }
      }
    }

    /** Drops everything in flight; the server slots are left as they are. */
    method Shutdown()
      modifies this`shutdown, this`active, this`perFile
      ensures shutdown && active == map[] && perFile == map[]
    {
      shutdown := true;
      active := map[];
      perFile := map[];
    }

    /** The commands by which NZBs come and go, but for the end of post-processing. */
    method HandleHistoryCommand(c: Command)
      requires Valid() && (c.AddNzb? || c.HistoryReturn? || c.HistoryProcess? || c.HistoryRedownload? || c.HistoryDelete?)
      modifies this`queue, this`history, this`nextNzbId, this`stalled, this`exits
      ensures Valid() && View() == Effect(old(View()), c, notifies)
    {
      hide Sound, InStep, Returned, Redownloaded, Processed, WithoutId, IndexOf, DuplicateOf, NewNzb, Enter;
      match c
      case AddNzb(parsed, labels, priority, paused, top) =>
        var added := AddNzb(parsed, labels, priority, paused, top);
      case HistoryReturn(id) =>
        var returned := HistoryReturn(id);
      case HistoryProcess(id) =>
        var processed := HistoryProcess(id);
      case HistoryRedownload(id) =>
        var redownloaded := HistoryRedownload(id);
      case HistoryDelete(id) =>
        var deleted := HistoryDelete(id);
    }

    /** The commands that change the queue and nothing else. */
    method HandleQueueCommand(c: Command)
      requires Valid()
      requires c.RemoveNzb? || c.PauseNzb? || c.ResumeNzb? || c.MoveNzb? || c.PauseFile? || c.ResumeFile? || c.EditQueue?
               || c.ParUnpause? || c.UpdatePostStage?
      modifies this`queue
      ensures Valid() && View() == Effect(old(View()), c, notifies)
    {
      hide Sound, InStep, Edited, Moved, WithPause, WithFilePause, WithParResumed, WithPost, WithoutId, IndexOf, Without;
      match c
      case RemoveNzb(id) =>
        var removed := RemoveNzb(id);
      case PauseNzb(id) =>
        PauseNzb(id, true);
      case ResumeNzb(id) =>
        PauseNzb(id, false);
      case MoveNzb(id, position) =>
        var moved := MoveNzb(id, position);
      case PauseFile(id, file) =>
        PauseFile(id, file, true);
      case ResumeFile(id, file) =>
        PauseFile(id, file, false);
      case EditQueue(action, ids) =>
        var edited := ApplyEdit(action, ids);
      case ParUnpause(id) =>
        UnpauseParFiles(id);
      case UpdatePostStage(id) =>
        UpdatePostStage(id);
    }

    /** The switches of the coordinator. */
    method HandleSwitch(c: Command)
      requires Valid() && !shutdown && (c.PauseAll? || c.ResumeAll? || c.SetStrategy? || c.Shutdown?)
      modifies this`queue, this`paused, this`strategy, this`shutdown, this`active, this`perFile
      ensures Now() == Commanded(old(Now()), c, notifies) && (!shutdown ==> Valid())
      ensures shutdown <==> c.Shutdown?
      ensures shutdown ==> Sound(View())
    {
      hide Sound, InStep, Effect, Landed, Reported, Pauses, AllResumed;
      match c
      case PauseAll =>
        PauseAll();
      case ResumeAll =>
        ResumeAll();
      case SetStrategy(strategy) =>
        SetStrategy(strategy);
      case Shutdown =>
        Shutdown();
    }

    /** Every command does exactly what it says, and what the application sends keeps the coordinator valid. */
    method HandleCommand(c: Command)
      requires Valid() && !shutdown
      modifies this, scheduler
      ensures Now() == Commanded(old(Now()), c, notifies)
      ensures Expected(old(queue), old(active), c) && !shutdown ==> Valid()
      ensures shutdown <==> c.Shutdown?
      ensures shutdown ==> Sound(View())
    {
      hide Sound, InStep, Effect, Commanded, Archived, Expected;
      EffectOnly(Now(), c, notifies);
      match c
      case DownloadComplete(report) =>
        HandleDownloadComplete(report);
      case FinishPostProcessing(id) =>
        FinishPostProcessing(id);
      case AddNzb(_, _, _, _, _) => HandleHistoryCommand(c);
      case HistoryReturn(_) => HandleHistoryCommand(c);
      case HistoryProcess(_) => HandleHistoryCommand(c);
      case HistoryRedownload(_) => HandleHistoryCommand(c);
      case HistoryDelete(_) => HandleHistoryCommand(c);
      case PauseAll => HandleSwitch(c);
      case ResumeAll => HandleSwitch(c);
      case SetStrategy(_) => HandleSwitch(c);
      case Shutdown => HandleSwitch(c);
      case _ => HandleQueueCommand(c);
    }

    method HandleEvent(e: Event)
      requires Valid() && !shutdown
      modifies this, scheduler
      ensures Now() == Handled(old(Now()), e, notifies)
      ensures shutdown <==> e == Incoming(Command.Shutdown)
      ensures !shutdown ==> Valid()
      ensures Sound(View()) && (shutdown ==> active == map[])
      ensures old(Boxed(Now())) && !shutdown ==> Boxed(Now())
      ensures Capacity(Now().slots, limits) == old(Capacity(Now().slots, limits))
    {
      hide Sound, InStep, Effect, Landed, Reported, Pauses, Expected, Taken, Boxed, Capacity;
      StopsOnly(e, Now());
      HandledCapacity(Now(), e, notifies, limits);
      if Boxed(Now()) && e != Incoming(Command.Shutdown) {
        HandledBoxed(Now(), e, notifies);
      }
      match e {
        case Incoming(command) =>
          if Expected(queue, active, command) && Taken(outbox, command) {
            HandleCommand(command);
          }
        case Tick =>
        case Worker =>
          if outbox != [] {
            var taken := TakeAssignment();
          }
      }
    }

    /**
     * The main loop over any sequence of events, up to a shutdown. The state at the end is the one
     * that the handled events and the refills in between lead to, each refill sent exactly what it
     * should, and until shutdown the books are sound and all views of what is in flight agree. With
     * room on the channel for every connection no refill finds it full.
     */
    method Run(events: seq<Event>) returns (ghost first: seq<ArticleId>, ghost fills: seq<seq<ArticleId>>)
      requires Valid() && !shutdown
      modifies this, scheduler
      ensures |fills| <= |events|
      ensures Fills(old(Now()), Configured(), first)
      ensures var start := Filled(old(Now()), Configured(), first);
              && RunFills(start, Configured(), events[..|fills|], fills)
              && Now() == AfterRun(start, Configured(), events[..|fills|], fills)
      ensures shutdown <==> fills != [] && events[|fills| - 1] == Incoming(Command.Shutdown)
      ensures !shutdown ==> |fills| == |events| && Valid()
      ensures Sound(View()) && (shutdown ==> active == map[])
      ensures old(Boxed(Now())) && !shutdown ==> Boxed(Now())
      ensures old(Roomy()) ==>
                && Filled(old(Now()), Configured(), first) == Launches(old(Now()), first)
                && NeverRefused(Filled(old(Now()), Configured(), first), Configured(), events[..|fills|], fills)
    {
      hide Sound, InStep, Boxed, Fills, Filled, Launches, Handled, AfterRun, RunFills, NeverRefused, Capacity;
      ghost var roomy := Roomy();
      first := TryFillDownloadSlots();
      fills := [];
      ghost var start := Now();
      RunStarts(start, Configured());
      for i := 0 to |events|
        invariant Valid() && !shutdown && |fills| == i
        invariant old(Boxed(Now())) ==> Boxed(Now())
        invariant roomy ==> Roomy() && NeverRefused(start, Configured(), events[..i], fills)
        invariant RunFills(start, Configured(), events[..i], fills)
        invariant Now() == AfterRun(start, Configured(), events[..i], fills)
        invariant i > 0 ==> events[i - 1] != Incoming(Command.Shutdown)
      {
        HandleEvent(events[i]);
        ghost var handled := Now();
        ghost var sent := TryFillDownloadSlots();
        if shutdown {
          StoppedFill(handled, Configured(), sent);
        }
        RunGoesOn(start, Configured(), events[..i], fills, events[i], sent);
        assert events[..i + 1] == events[..i] + [events[i]];
        fills := fills + [sent];
        if shutdown && active == map[] {
          return;
        }
      }
      assert events[..|events|] == events;
    }
  }
}
