/** Why no NZB gets stuck that entered the queue ready to be downloaded. */
module Progress {
  import opened Common
  import opened Inflight
  import opened Ledger
  import opened Queue
  import opened Selection
  import opened Tracking

  /** Every running article is in flight, and there is an open one until post-processing. */
  ghost predicate Live(n: Nzb, keys: set<ArticleId>) {
    && (forall f: nat, a: nat :: HasArticle(n, f, a) && ArticleAt(n, f, a).status == Running ==> ArticleId(n.id, f, a) in keys)
    && (AllDone(n) ==> n.post)
    && NoEmptyFile(n)
  }

  /** Every NZB that was startable when it entered is live; `stalled` holds the ids of the others. */
  ghost predicate Carried(queue: seq<Nzb>, keys: set<ArticleId>, next: nat, stalled: set<nat>) {
    && (forall id :: id in stalled ==> id < next)
    && forall i :: 0 <= i < |queue| && queue[i].id !in stalled ==> Live(queue[i], keys)
  }

  lemma StartableLive(n: Nzb, keys: set<ArticleId>)
    requires Startable(n)
    ensures Live(n, keys)
  {
    forall f: nat, a: nat | HasArticle(n, f, a)
      ensures ArticleAt(n, f, a).status != Running
    {
    }
  }

  lemma PostLive(n: Nzb, keys: set<ArticleId>)
    requires Live(n, keys)
    ensures Live(n.(post := true), keys)
  {
    var m := n.(post := true);
    forall f: nat, a: nat | HasArticle(m, f, a) && ArticleAt(m, f, a).status == Running
      ensures ArticleId(m.id, f, a) in keys
    {
      assert HasArticle(n, f, a) && ArticleAt(n, f, a).status == Running;
    }
  }

  lemma RestoredCarried(queue: seq<Nzb>, keys: set<ArticleId>, next: nat)
    requires forall i :: 0 <= i < |queue| ==> queue[i].id < next
    ensures Carried(queue, keys, next, StalledIds(queue))
  {
    forall i | 0 <= i < |queue| && queue[i].id !in StalledIds(queue)
      ensures Live(queue[i], keys)
    {
      StartableLive(queue[i], keys);
    }
  }

  lemma CarriedReplace(queue: seq<Nzb>, keys: set<ArticleId>, next: nat, stalled: set<nat>, i: nat, m: Nzb)
    requires Carried(queue, keys, next, stalled) && i < |queue|
    requires m.id !in stalled ==> Live(m, keys)
    ensures Carried(queue[i := m], keys, next, stalled)
  {
    hide Live;
  }

  lemma CarriedWithout(queue: seq<Nzb>, keys: set<ArticleId>, next: nat, stalled: set<nat>, i: nat)
    requires Carried(queue, keys, next, stalled) && i < |queue|
    ensures Carried(Without(queue, i), keys, next, stalled)
  {
    hide Live;
  }

  lemma CarriedSkip(queue: seq<Nzb>, keys: set<ArticleId>, next: nat, stalled: set<nat>)
    requires Carried(queue, keys, next, stalled)
    ensures Carried(queue, keys, next + 1, stalled)
  {
    hide Live;
  }

  lemma CarriedEnter(queue: seq<Nzb>, keys: set<ArticleId>, next: nat, stalled: set<nat>, n: Nzb, top: bool)
    requires Carried(queue, keys, next, stalled) && n.id == next
    ensures Carried(if top then [n] + queue else queue + [n], keys, next + 1, Stalling(n, stalled))
  {
    if Startable(n) {
      StartableLive(n, keys);
    }
    hide Live, Startable;
    var after := if top then [n] + queue else queue + [n];
    forall i | 0 <= i < |after| && after[i].id !in Stalling(n, stalled)
      ensures Live(after[i], keys)
    {
      var j := if top then i - 1 else i;
      assert 0 <= j < |queue| ==> after[i] == queue[j];
    }
  }

  lemma CarriedCosmetic(queue: seq<Nzb>, keys: set<ArticleId>, next: nat, stalled: set<nat>, i: nat, m: Nzb)
    requires Carried(queue, keys, next, stalled) && i < |queue| && Cosmetic(queue[i], m)
    ensures Carried(queue[i := m], keys, next, stalled)
  {
    if m.id !in stalled {
      assert Live(queue[i], keys);
      forall f: nat, a: nat | HasArticle(m, f, a) && ArticleAt(m, f, a).status == Running
        ensures ArticleId(m.id, f, a) in keys
      {
        assert HasArticle(queue[i], f, a);
      }
      assert AllDone(m) ==> AllDone(queue[i]);
    }
    hide Live;
    CarriedReplace(queue, keys, next, stalled, i, m);
  }

  lemma CarriedMove(queue: seq<Nzb>, keys: set<ArticleId>, next: nat, stalled: set<nat>, i: nat, k: nat)
    requires Carried(queue, keys, next, stalled) && i < |queue| && k < |queue|
    ensures Carried(Inserted(Without(queue, i), k, queue[i]), keys, next, stalled)
  {
    hide Live;
    var rest := Without(queue, i);
    var moved := Inserted(rest, k, queue[i]);
    forall j | 0 <= j < |moved| && moved[j].id !in stalled
      ensures Live(moved[j], keys)
    {
      if j == k {
        assert moved[j] == queue[i];
      } else {
        var r := if j < k then j else j - 1;
        assert moved[j] == rest[r] == queue[if r < i then r else r + 1];
      }
    }
  }

  /** A dispatched article is in flight. */
  lemma CarriedLaunch(queue: seq<Nzb>, keys: set<ArticleId>, next: nat, stalled: set<nat>, i: nat, id: ArticleId)
    requires Carried(queue, keys, next, stalled) && i < |queue| && queue[i].id == id.nzb
    requires HasArticle(queue[i], id.file, id.seg)
    ensures Carried(queue[i := Relabel(queue[i], id.file, id.seg, Running)], keys + {id}, next, stalled)
  {
    var n := queue[i];
    var m := Relabel(n, id.file, id.seg, Running);
    if n.id !in stalled {
      LiveTouched(n, m, keys, id);
      assert !Terminal(ArticleAt(m, id.file, id.seg).status);
      assert forall f :: 0 <= f < |n.files| ==> |m.files[f].articles| == |n.files[f].articles|;
      LiveMore(m, keys, id);
    }
    forall j | 0 <= j < |queue| && queue[j].id !in stalled
      ensures Live(queue[j], keys + {id})
    {
      LiveMore(queue[j], keys, id);
    }
    hide Live, Relabel;
  }

  /** An update that touches one article only, which is then in flight. */
  lemma LiveTouched(n: Nzb, m: Nzb, keys: set<ArticleId>, id: ArticleId)
    requires Live(n, keys) && m.id == n.id && TouchesOnly(n, m, id.file, id.seg) && n.id == id.nzb
    ensures forall f: nat, a: nat :: HasArticle(m, f, a) && ArticleAt(m, f, a).status == Running ==>
              ArticleId(m.id, f, a) in keys + {id}
  {
    forall f: nat, a: nat | HasArticle(m, f, a) && ArticleAt(m, f, a).status == Running && (f != id.file || a != id.seg)
      ensures ArticleId(m.id, f, a) in keys
    {
      assert HasArticle(n, f, a) && ArticleAt(m, f, a) == ArticleAt(n, f, a);
    }
  }

  lemma LiveMore(n: Nzb, keys: set<ArticleId>, id: ArticleId)
    ensures Live(n, keys) ==> Live(n, keys + {id})
  {
  }

  /** With its article no longer running, an id may leave the flights. */
  lemma LiveWithout(n: Nzb, keys: set<ArticleId>, id: ArticleId)
    requires forall f: nat, a: nat :: HasArticle(n, f, a) && ArticleAt(n, f, a).status == Running ==>
               ArticleId(n.id, f, a) in keys + {id}
    requires id.nzb != n.id || (HasArticle(n, id.file, id.seg) && ArticleAt(n, id.file, id.seg).status != Running)
    requires (AllDone(n) ==> n.post) && NoEmptyFile(n)
    ensures Live(n, keys - {id})
  {
  }

  lemma OthersLand(queue: seq<Nzb>, keys: set<ArticleId>, next: nat, stalled: set<nat>, id: ArticleId, i: nat)
    requires Carried(queue, keys, next, stalled) && i <= |queue|
    requires forall j :: 0 <= j < |queue| && j != i ==> queue[j].id != id.nzb
    ensures forall j :: 0 <= j < |queue| && j != i && queue[j].id !in stalled ==> Live(queue[j], keys - {id})
  {
    forall j | 0 <= j < |queue| && j != i && queue[j].id !in stalled
      ensures Live(queue[j], keys - {id})
    {
      LiveWithout(queue[j], keys, id);
    }
  }

  lemma LandReplaced(queue: seq<Nzb>, keys: set<ArticleId>, next: nat, stalled: set<nat>, id: ArticleId, i: nat, m: Nzb)
    requires Carried(queue, keys, next, stalled) && DistinctIds(queue) && i < |queue| && queue[i].id == id.nzb == m.id
    requires TouchesOnly(queue[i], m, id.file, id.seg)
    requires HasArticle(m, id.file, id.seg) && ArticleAt(m, id.file, id.seg).status != Running
    requires m.id !in stalled && AllDone(m) ==> m.post
    ensures Carried(queue[i := m], keys - {id}, next, stalled)
    ensures Carried(Without(queue, i), keys - {id}, next, stalled)
  {
    OthersLand(queue, keys, next, stalled, id, i);
    if m.id !in stalled {
      LiveTouched(queue[i], m, keys, id);
      assert forall f :: 0 <= f < |m.files| ==> |m.files[f].articles| == |queue[i].files[f].articles|;
      LiveWithout(m, keys, id);
    }
    hide Live, TouchesOnly;
    CarriedWithout(queue[i := m], keys - {id}, next, stalled, i);
    assert Without(queue[i := m], i) == Without(queue, i);
  }

  /** A report lands its article without leaving anything behind. */
  lemma CarriedReport(b: Books, keys: set<ArticleId>, id: ArticleId, outcome: Outcome, notifies: bool)
    requires Identified(b.queue, b.history, b.next) && AllTrusted(b.queue) && Carried(b.queue, keys, b.next, b.stalled)
    requires Known(b.queue, id)
    ensures Carried(Reported(b, id, outcome, notifies).queue, keys - {id}, b.next, b.stalled)
  {
    var i := IndexOf(b.queue, id.nzb);
    if i == |b.queue| {
      OthersLand(b.queue, keys, b.next, b.stalled, id, i);
      hide Live;
    } else {
      var n := b.queue[i];
      assert n.id !in b.stalled ==> Live(n, keys);
      if Terminal(ArticleAt(n, id.file, id.seg).status) {
        OthersLand(b.queue, keys, b.next, b.stalled, id, i);
        if n.id !in b.stalled {
          LiveWithout(n, keys, id);
        }
        hide Live;
      } else if outcome == Blocked {
        var m := Relabel(n, id.file, id.seg, Undefined);
        assert !Terminal(ArticleAt(m, id.file, id.seg).status);
        LandReplaced(b.queue, keys, b.next, b.stalled, id, i, m);
      } else {
        CarriedBooked(b, keys, id, outcome, notifies);
      }
    }
  }

  /** Settled, with nothing left and no empty file: every file carries its mark. */
  lemma DoneIsCompleted(n: Nzb)
    requires Settled(n) && AllDone(n) && NoEmptyFile(n)
    ensures AllCompleted(n)
  {
  }

  lemma CarriedBooked(b: Books, keys: set<ArticleId>, id: ArticleId, outcome: Outcome, notifies: bool)
    requires Identified(b.queue, b.history, b.next) && AllTrusted(b.queue) && Carried(b.queue, keys, b.next, b.stalled)
    requires IsOpen(b.queue, id) && outcome != Blocked
    ensures Carried(Reported(b, id, outcome, notifies).queue, keys - {id}, b.next, b.stalled)
  {
    var i := IndexOf(b.queue, id.nzb);
    var n := b.queue[i];
    var m := AfterArticle(n, id.file, id.seg, outcome == Success);
    var closed := CloseFile(m, id.file);
    AfterArticleTouches(n, id.file, id.seg, outcome == Success);
    AfterArticleStatus(n, id.file, id.seg, outcome == Success);
    AfterArticleTrusted(n, id.file, id.seg, outcome == Success);
    assert n.id !in b.stalled ==> NoEmptyFile(n);
    assert n.id !in b.stalled ==> NoEmptyFile(closed) by {
      assert forall f :: 0 <= f < |n.files| ==> |closed.files[f].articles| == |n.files[f].articles|;
    }
    hide Carried, TouchesOnly, Booked, WithHealth, Hopeless, CloseFile, AllCompleted, Settled, AllDone, NoEmptyFile;
    ReportedQueue(b, id, outcome, notifies);
    LandReplaced(b.queue, keys, b.next, b.stalled, id, i, closed.(post := true));
    if !Hopeless(m) && !AllCompleted(closed) {
      if n.id !in b.stalled && AllDone(closed) {
        DoneIsCompleted(closed);
      }
      LandReplaced(b.queue, keys, b.next, b.stalled, id, i, closed);
    }
  }

  lemma AfterArticleStatus(n: Nzb, f: nat, a: nat, success: bool)
    requires HasArticle(n, f, a)
    ensures var closed := CloseFile(AfterArticle(n, f, a, success), f);
            HasArticle(closed, f, a) && Terminal(ArticleAt(closed, f, a).status)
  {
    hide TallySuccess, TallyFailure, Health, CriticalHealth, AllTerminal;
  }

  // ---- Quiescence ----

  lemma NothingInFlight(counts: Counts, nzb: nat, file: nat)
    requires CountsAgree(counts, map[])
    ensures ActiveOf(counts, nzb, file) == 0
  {
    assert OfFile(map[], nzb, file) == {};
  }

  /** With no article undefined and none in flight there is nothing left, so it is in post-processing. */
  lemma NothingWaits(n: Nzb)
    requires Live(n, {}) && forall f :: 0 <= f < |n.files| ==> !Waiting(n.files[f])
    ensures n.post
  {
    forall f | 0 <= f < |n.files|
      ensures AllTerminal(n.files[f])
    {
      forall a | 0 <= a < |n.files[f].articles|
        ensures Terminal(n.files[f].articles[a].status)
      {
        assert HasArticle(n, f, a) && ArticleAt(n, f, a) == n.files[f].articles[a];
        assert !Waiting(n.files[f]);
      }
    }
  }

  /**
   * When nothing is in flight and no strategy finds anything to download, every NZB that was
   * startable is out of the way: in post-processing, paused, or with a paused file.
   */
  lemma NothingLeftBehind(queue: seq<Nzb>, counts: Counts, limits: Limits, strategy: Strategy, next: nat, stalled: set<nat>, i: nat)
    requires Carried(queue, {}, next, stalled) && CountsAgree(counts, map[])
    requires Follows(queue, counts, limits, strategy, None) && limits.connections > 0 && limits.perFile > 0
    requires i < |queue| && queue[i].id !in stalled
    ensures !NzbOpen(queue[i]) || exists f :: 0 <= f < |queue[i].files| && !FileOpen(queue[i], f)
  {
    var n := queue[i];
    assert Live(n, {});
    if NzbOpen(n) && forall f :: 0 <= f < |n.files| ==> FileOpen(n, f) {
      hide Follows, Live;
      forall f | 0 <= f < |n.files|
        ensures !Waiting(n.files[f])
      {
        if Waiting(n.files[f]) {
          NothingInFlight(counts, n.id, f);
          WorkConserving(queue, counts, limits, strategy, None, i, f);
        }
      }
      NothingWaits(n);
    }
  }
}
