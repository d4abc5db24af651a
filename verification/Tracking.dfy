/** The redundant views of the articles in flight, and why they stay in step. */
module Tracking {
  import opened Common
  import opened History
  import opened Inflight
  import opened Ledger
  import opened Queue
  import opened Selection

  // ---- The three views of what is in flight ----

  ghost predicate Flying(n: Nzb, id: ArticleId) {
    HasArticle(n, id.file, id.seg) && ArticleAt(n, id.file, id.seg).status == Running
  }

  /** An article in flight whose NZB is still queued exists there and is running. */
  ghost predicate Tracks(queue: seq<Nzb>, active: Flights, next: nat) {
    && (forall id :: id in active ==> id.nzb < next)
    && forall id, i :: id in active && 0 <= i < |queue| && queue[i].id == id.nzb ==> Flying(queue[i], id)
  }

  /** Nothing of a completed NZB is in flight. */
  ghost predicate Grounded(exits: seq<Exit>, active: Flights) {
    forall id :: id in active ==> Completed(id.nzb) !in exits
  }

  /** The per-file counters count the articles in flight, and hold no zero. */
  ghost predicate CountsAgree(counts: Counts, active: Flights) {
    && (forall n: nat, f: nat :: ActiveOf(counts, n, f) == |OfFile(active, n, f)|)
    && forall key :: key in counts ==> counts[key] > 0
  }

  function Increment(counts: Counts, key: (nat, nat)): Counts {
    counts[key := (if key in counts then counts[key] else 0) + 1]
  }

  function Decrement(counts: Counts, key: (nat, nat)): Counts {
    if key !in counts then counts
    else if Less(counts[key], 1) == 0 then counts - {key}
    else counts[key := Less(counts[key], 1)]
  }

  lemma LaunchCounts(counts: Counts, active: Flights, id: ArticleId, flight: Flight)
    requires CountsAgree(counts, active) && id !in active
    ensures CountsAgree(Increment(counts, (id.nzb, id.file)), active[id := flight])
  {
    forall n: nat, f: nat
      ensures ActiveOf(Increment(counts, (id.nzb, id.file)), n, f) == |OfFile(active[id := flight], n, f)|
    {
      FileLaunch(active, id, flight, n, f);
      assert ActiveOf(counts, n, f) == |OfFile(active, n, f)|;
    }
  }

  lemma LandCounts(counts: Counts, active: Flights, id: ArticleId)
    requires CountsAgree(counts, active) && id in active
    ensures CountsAgree(Decrement(counts, (id.nzb, id.file)), active - {id})
  {
    forall n: nat, f: nat
      ensures ActiveOf(Decrement(counts, (id.nzb, id.file)), n, f) == |OfFile(active - {id}, n, f)|
    {
      FileLand(active, id, n, f);
      assert ActiveOf(counts, n, f) == |OfFile(active, n, f)|;
    }
  }

  /** Replacing an NZB by one that leaves the articles in flight running. */
  lemma ReplaceTracks(queue: seq<Nzb>, active: Flights, next: nat, i: nat, m: Nzb)
    requires Tracks(queue, active, next) && i < |queue| && m.id == queue[i].id
    requires forall id :: id in active && id.nzb == m.id ==> Flying(m, id)
    ensures Tracks(queue[i := m], active, next)
  {
    hide Flying;
  }

  lemma WithoutTracks(queue: seq<Nzb>, active: Flights, next: nat, i: nat)
    requires Tracks(queue, active, next) && i < |queue|
    ensures Tracks(Without(queue, i), active, next)
  {
    hide Flying;
  }

  /** What is not in flight under the next id cannot be in flight in a new NZB. */
  lemma EnterTracks(queue: seq<Nzb>, active: Flights, next: nat, n: Nzb, top: bool)
    requires Tracks(queue, active, next) && n.id == next
    ensures Tracks(if top then [n] + queue else queue + [n], active, next + 1)
  {
    hide Flying;
    var after := if top then [n] + queue else queue + [n];
    forall id, i | id in active && 0 <= i < |after| && after[i].id == id.nzb
      ensures Flying(after[i], id)
    {
      var j := if top then i - 1 else i;
      assert after[i] == queue[j];
    }
  }

  lemma SkipIdTracks(queue: seq<Nzb>, active: Flights, next: nat)
    requires Tracks(queue, active, next)
    ensures Tracks(queue, active, next + 1)
  {
    hide Flying;
  }

  lemma LandTracks(queue: seq<Nzb>, active: Flights, next: nat, id: ArticleId)
    requires Tracks(queue, active, next)
    ensures Tracks(queue, active - {id}, next)
  {
    hide Flying;
  }

  /** An update that touches the status of one article only. */
  ghost predicate TouchesOnly(n: Nzb, m: Nzb, f: nat, a: nat) {
    && |m.files| == |n.files|
    && (forall g :: 0 <= g < |n.files| ==> |m.files[g].articles| == |n.files[g].articles|)
    && forall g: nat, b: nat :: HasArticle(n, g, b) && (g != f || b != a) ==> ArticleAt(m, g, b) == ArticleAt(n, g, b)
  }

  lemma TouchFlying(n: Nzb, m: Nzb, f: nat, a: nat, id: ArticleId)
    requires TouchesOnly(n, m, f, a) && Flying(n, id) && (id.file != f || id.seg != a)
    ensures Flying(m, id)
  {
    assert HasArticle(n, id.file, id.seg);
  }

  lemma AfterArticleTouches(n: Nzb, f: nat, a: nat, success: bool)
    requires HasArticle(n, f, a)
    ensures TouchesOnly(n, AfterArticle(n, f, a, success), f, a)
    ensures TouchesOnly(n, CloseFile(AfterArticle(n, f, a, success), f), f, a)
    ensures TouchesOnly(n, CloseFile(AfterArticle(n, f, a, success), f).(post := true), f, a)
  {
    hide TallySuccess, TallyFailure, Health, CriticalHealth, AllTerminal;
  }

  /** A report for an article that has landed leaves the others tracked. */
  lemma ReportedTracks(b: Books, active: Flights, id: ArticleId, outcome: Outcome, notifies: bool)
    requires Identified(b.queue, b.history, b.next) && Tracks(b.queue, active, b.next) && id !in active
    requires Known(b.queue, id)
    ensures Tracks(Reported(b, id, outcome, notifies).queue, active, b.next)
  {
    if IsOpen(b.queue, id) {
      var i := IndexOf(b.queue, id.nzb);
      var n := b.queue[i];
      WithoutTracks(b.queue, active, b.next, i);
      if outcome == Blocked {
        TouchTracks(b.queue, active, b.next, i, Relabel(n, id.file, id.seg, Undefined), id);
      } else {
        var m := AfterArticle(n, id.file, id.seg, outcome == Success);
        AfterArticleTouches(n, id.file, id.seg, outcome == Success);
        TouchTracks(b.queue, active, b.next, i, CloseFile(m, id.file), id);
        TouchTracks(b.queue, active, b.next, i, CloseFile(m, id.file).(post := true), id);
        hide Tracks, Booked, Identified;
        ReportedQueue(b, id, outcome, notifies);
      }
    }
  }

  /** The three queues that a booked article can lead to. */
  lemma ReportedQueue(b: Books, id: ArticleId, outcome: Outcome, notifies: bool)
    requires IsOpen(b.queue, id) && outcome != Blocked
    ensures var i := IndexOf(b.queue, id.nzb);
            var m := AfterArticle(b.queue[i], id.file, id.seg, outcome == Success);
            var closed := CloseFile(m, id.file);
            var after := Reported(b, id, outcome, notifies);
            && after.next == b.next && after.stalled == b.stalled
            && if Hopeless(m) then
                 && after.queue == Without(b.queue, i) && after.history == b.history + [m]
                 && after.exits == b.exits + [GivenUp(id.nzb)]
               else if !AllCompleted(closed) then
                 after.queue == b.queue[i := closed] && after.history == b.history && after.exits == b.exits
               else
                 && after.exits == b.exits + [Completed(id.nzb)]
                 && if notifies then after.queue == b.queue[i := closed.(post := true)] && after.history == b.history
                    else after.queue == Without(b.queue, i) && after.history == b.history + [closed.(post := true)]
  {
    var i := IndexOf(b.queue, id.nzb);
    var m := AfterArticle(b.queue[i], id.file, id.seg, outcome == Success);
    var closed := CloseFile(m, id.file);
    hide Booked, WithHealth, Hopeless, CloseFile, AllCompleted;
    var c := b.queue[i := Booked(b.queue[i], id.file, id.seg, outcome == Success)];
    assert c[i := m] == b.queue[i := m] && c[i := closed] == b.queue[i := closed];
    assert Without(c[i := m], i) == Without(b.queue, i) == Without(c[i := closed], i);
    assert c[i := closed][i := closed.(post := true)] == b.queue[i := closed.(post := true)];
  }

  /** An NZB that completes with a report has nothing in flight any more. */
  lemma ReportedGrounded(b: Books, active: Flights, id: ArticleId, outcome: Outcome, notifies: bool)
    requires Sound(b) && Known(b.queue, id) && Tracks(b.queue, active, b.next) && Grounded(b.exits, active)
    requires id !in active
    ensures Grounded(Reported(b, id, outcome, notifies).exits, active)
  {
    if IsOpen(b.queue, id) && outcome != Blocked {
      var i := IndexOf(b.queue, id.nzb);
      var n := b.queue[i];
      var m := AfterArticle(n, id.file, id.seg, outcome == Success);
      var closed := CloseFile(m, id.file);
      assert Trusted(n);
      AfterArticleTouches(n, id.file, id.seg, outcome == Success);
      AfterArticleTrusted(n, id.file, id.seg, outcome == Success);
      hide Sound, Booked, WithHealth, Hopeless, CloseFile, Trusted;
      ReportedQueue(b, id, outcome, notifies);
      hide Flying, AllCompleted, IsOpen, Known;
      forall other | other in active && other.nzb == id.nzb && !Hopeless(m)
        ensures !AllCompleted(closed)
      {
        assert Flying(n, other);
        FlyingOpens(n, closed, id, other);
      }
    }
  }

  /** An article still in flight keeps its file, and so its NZB, from being complete. */
  lemma FlyingOpens(n: Nzb, m: Nzb, id: ArticleId, other: ArticleId)
    requires TouchesOnly(n, m, id.file, id.seg) && Flying(n, other) && Settled(m)
    requires other.file != id.file || other.seg != id.seg
    ensures !AllCompleted(m)
  {
    TouchFlying(n, m, id.file, id.seg, other);
    assert !AllTerminal(m.files[other.file]);
  }

  lemma TouchTracks(queue: seq<Nzb>, active: Flights, next: nat, i: nat, m: Nzb, id: ArticleId)
    requires DistinctIds(queue) && Tracks(queue, active, next) && i < |queue| && m.id == queue[i].id == id.nzb
    requires TouchesOnly(queue[i], m, id.file, id.seg) && id !in active
    ensures Tracks(queue[i := m], active, next)
  {
    forall other | other in active && other.nzb == m.id
      ensures Flying(m, other)
    {
      assert other != id;
      TouchFlying(queue[i], m, id.file, id.seg, other);
    }
    hide Flying, TouchesOnly;
    ReplaceTracks(queue, active, next, i, m);
  }

  /** A new flight: its article turns from undefined to running. */
  lemma LaunchTracks(queue: seq<Nzb>, active: Flights, next: nat, i: nat, id: ArticleId, flight: Flight)
    requires DistinctIds(queue) && Tracks(queue, active, next) && i < |queue| && queue[i].id == id.nzb < next
    requires HasArticle(queue[i], id.file, id.seg) && id !in active
    ensures Tracks(queue[i := Relabel(queue[i], id.file, id.seg, Running)], active[id := flight], next)
  {
    var m := Relabel(queue[i], id.file, id.seg, Running);
    TouchTracks(queue, active, next, i, m, id);
    assert Flying(m, id);
    hide Flying, Relabel;
  }

  lemma CosmeticTracks(queue: seq<Nzb>, active: Flights, next: nat, i: nat, m: Nzb)
    requires Tracks(queue, active, next) && i < |queue| && Cosmetic(queue[i], m)
    ensures Tracks(queue[i := m], active, next)
  {
    forall id | id in active && id.nzb == m.id
      ensures Flying(m, id)
    {
      assert Flying(queue[i], id);
    }
    hide Flying;
    ReplaceTracks(queue, active, next, i, m);
  }

  lemma MoveTracks(queue: seq<Nzb>, active: Flights, next: nat, i: nat, k: nat)
    requires Tracks(queue, active, next) && i < |queue| && k < |queue|
    ensures Tracks(Inserted(Without(queue, i), k, queue[i]), active, next)
  {
    hide Flying;
    var rest := Without(queue, i);
    var moved := Inserted(rest, k, queue[i]);
    forall id, j | id in active && 0 <= j < |moved| && moved[j].id == id.nzb
      ensures Flying(moved[j], id)
    {
      if j == k {
        assert moved[j] == queue[i];
      } else {
        var r := if j < k then j else j - 1;
        assert moved[j] == rest[r] == queue[if r < i then r else r + 1];
      }
    }
  }
}
