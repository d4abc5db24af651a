/** What stays true of one NZB over a whole run, for as long as it is queued. */
module Lineage {
  import opened Commands
  import opened Common
  import opened Dispatch
  import opened History
  import opened Inflight
  import opened Keeping
  import opened Ledger
  import opened Queue
  import opened Selection
  import opened Tracking

  /**
   * A promise about the NZB with a given id: while it is queued it satisfies `keeps`, only articles
   * that `touches` admits are in flight, and none of the barred exits is recorded.
   */
  datatype Law = Law(id: nat, keeps: Nzb -> bool, touches: ArticleId -> bool, barred: set<Exit>)

  ghost predicate Kept(law: Law, queue: seq<Nzb>) {
    forall i :: 0 <= i < |queue| && queue[i].id == law.id ==> law.keeps(queue[i])
  }

  ghost predicate Barred(law: Law, exits: seq<Exit>) {
    forall e :: e in law.barred ==> e.id == law.id && e !in exits
  }

  ghost predicate Touchable(law: Law, active: Flights) {
    forall id :: id in active && id.nzb == law.id ==> law.touches(id)
  }

  ghost predicate BooksObey(law: Law, b: Books) {
    law.id < b.next && Kept(law, b.queue) && Barred(law, b.exits)
  }

  ghost predicate Obeys(law: Law, d: Desk) {
    BooksObey(law, d.books) && Touchable(law, d.active)
  }

  // ---- Which promises are kept ----

  /** Flags do not matter. */
  ghost predicate KeptByFlags(law: Law) {
    forall n: Nzb, m: Nzb :: Cosmetic(n, m) && n.id == law.id && law.keeps(n) ==> law.keeps(m)
  }

  /** Only articles that may be touched are ever selected, and touching them does not matter. */
  ghost predicate KeptByLaunch(law: Law) {
    forall n: Nzb, f: nat, a: nat :: n.id == law.id && law.keeps(n) && HasArticle(n, f, a) ==>
      && (ArticleAt(n, f, a).status == Undefined ==> law.touches(ArticleId(law.id, f, a)))
      && (law.touches(ArticleId(law.id, f, a)) ==>
            law.keeps(Relabel(n, f, a, Running)) && law.keeps(Relabel(n, f, a, Undefined)))
  }

  /** A report about an article that may be touched keeps the NZB as it should be, or lets it leave by another exit. */
  ghost predicate KeptByReport(law: Law) {
    forall n: Nzb, f: nat, a: nat, success: bool :: n.id == law.id && law.keeps(n) && law.touches(ArticleId(law.id, f, a)) ==>
      KeptAfter(law, AfterArticle(n, f, a, success), f)
  }

  ghost predicate KeptAfter(law: Law, m: Nzb, f: nat) {
    if Hopeless(m) then GivenUp(law.id) !in law.barred
    else
      var closed := CloseFile(m, f);
      if AllCompleted(closed) then Completed(law.id) !in law.barred && law.keeps(closed.(post := true)) else law.keeps(closed)
  }

  ghost predicate Coherent(law: Law) {
    KeptByFlags(law) && KeptByLaunch(law) && KeptByReport(law)
  }

  // ---- One step ----

  /** Every entry under the id comes from an earlier one by a change of flags. */
  ghost predicate Flagged(law: Law, before: seq<Nzb>, after: seq<Nzb>) {
    forall j :: 0 <= j < |after| && after[j].id == law.id ==> exists i :: 0 <= i < |before| && Cosmetic(before[i], after[j])
  }

  lemma SameNzb(n: Nzb)
    ensures Cosmetic(n, n)
  {
  }

  lemma FlaggedKept(law: Law, before: seq<Nzb>, after: seq<Nzb>)
    requires KeptByFlags(law) && Kept(law, before) && Flagged(law, before, after)
    ensures Kept(law, after)
  {
    forall j | 0 <= j < |after| && after[j].id == law.id
      ensures law.keeps(after[j])
    {
      var i :| 0 <= i < |before| && Cosmetic(before[i], after[j]);
      assert before[i].id == law.id;
    }
    hide Cosmetic;
  }

  lemma FlaggedReplace(law: Law, q: seq<Nzb>, i: nat, m: Nzb)
    requires i < |q| && Cosmetic(q[i], m)
    ensures Flagged(law, q, q[i := m])
  {
    hide Cosmetic;
    forall j | 0 <= j < |q|
      ensures Cosmetic(q[j], if j == i then m else q[j])
    {
      SameNzb(q[j]);
    }
  }

  /** Every entry under the id was there before. */
  lemma FlaggedSubset(law: Law, before: seq<Nzb>, after: seq<Nzb>)
    requires forall j :: 0 <= j < |after| && after[j].id == law.id ==> after[j] in before
    ensures Flagged(law, before, after)
  {
    hide Cosmetic;
    forall j | 0 <= j < |after| && after[j].id == law.id
      ensures exists i :: 0 <= i < |before| && Cosmetic(before[i], after[j])
    {
      SameNzb(after[j]);
      var i :| 0 <= i < |before| && before[i] == after[j];
    }
  }

  lemma FlaggedThen(law: Law, p: seq<Nzb>, q: seq<Nzb>, r: seq<Nzb>)
    requires Flagged(law, p, q) && Flagged(law, q, r)
    ensures Flagged(law, p, r)
  {
    forall j | 0 <= j < |r| && r[j].id == law.id
      ensures exists i :: 0 <= i < |p| && Cosmetic(p[i], r[j])
    {
      var k :| 0 <= k < |q| && Cosmetic(q[k], r[j]);
      assert q[k].id == law.id;
      var i :| 0 <= i < |p| && Cosmetic(p[i], q[k]);
      CosmeticThen(p[i], q[k], r[j]);
    }
  }

  lemma CosmeticThen(n: Nzb, m: Nzb, o: Nzb)
    requires Cosmetic(n, m) && Cosmetic(m, o)
    ensures Cosmetic(n, o)
  {
  }

  lemma MovedFlagged(law: Law, q: seq<Nzb>, id: nat, position: Position)
    ensures Flagged(law, q, Moved(q, id, position).0)
  {
    var i := IndexOf(q, id);
    if i == |q| {
      FlaggedSubset(law, q, q);
    } else {
      FlaggedSubset(law, q, Without(q, i));
      var k := Landing(Without(q, i), i, position);
      if k.Some? {
        var moved := Inserted(Without(q, i), k.value, q[i]);
        MovePermutes(q, i, k.value);
        forall j | 0 <= j < |moved|
          ensures moved[j] in q
        {
          assert moved[j] in multiset(moved);
          assert moved[j] in multiset(q);
        }
        FlaggedSubset(law, q, moved);
      }
    }
  }

  lemma PausedFlagged(law: Law, q: seq<Nzb>, id: nat, pause: bool, priority: Priority, f: nat)
    ensures Flagged(law, q, WithPause(q, id, pause)) && Flagged(law, q, WithPriority(q, id, priority))
    ensures Flagged(law, q, WithFilePause(q, id, f, pause)) && Flagged(law, q, WithPost(q, id))
    ensures Flagged(law, q, WithoutId(q, id)) && Flagged(law, q, WithParResumed(q, id))
  {
    hide Flagged, Cosmetic;
    FlaggedSubset(law, q, q);
    var i := IndexOf(q, id);
    if i < |q| {
      var n := q[i];
      FlagsCosmetic(n, pause, priority, f);
      ParResumedCosmetic(n);
      FlaggedReplace(law, q, i, n.(paused := pause));
      FlaggedReplace(law, q, i, n.(priority := priority));
      FlaggedReplace(law, q, i, n.(post := true));
      FlaggedReplace(law, q, i, ParResumed(n));
      if f < |n.files| {
        FlaggedReplace(law, q, i, WithFile(n, f, n.files[f].(paused := pause)));
      }
      FlaggedSubset(law, q, Without(q, i));
    }
  }

  lemma LabelsFlagged(law: Law, q: seq<Nzb>, id: nat, action: EditAction)
    ensures Flagged(law, q, WithLabels(q, id, action))
  {
    hide Flagged;
    FlaggedSubset(law, q, q);
    var i := IndexOf(q, id);
    if i < |q| {
      FlaggedReplace(law, q, i, q[i].(labels := Edit(q[i].labels, action)));
    }
  }

  lemma ResumedFlagged(law: Law, q: seq<Nzb>)
    ensures Flagged(law, q, AllResumed(q))
  {
    forall j | 0 <= j < |q|
      ensures Cosmetic(q[j], AllResumed(q)[j])
    {
    }
    hide Cosmetic, AllResumed;
  }

  lemma {:induction false} EditedFlagged(law: Law, q: seq<Nzb>, action: EditAction, ids: seq<nat>)
    ensures Flagged(law, q, Edited(q, action, ids).0)
    decreases |ids|
  {
    hide Flagged, Moved, WithPause, WithPriority, WithoutId, WithLabels;
    FlaggedSubset(law, q, q);
    if ids != [] {
      LabelsFlagged(law, q, ids[0], action);
      PausedFlagged(law, q, ids[0], action.Pause?, if action.SetPriority? then action.priority else Normal, 0);
      if action.Move? {
        MovedFlagged(law, q, ids[0], action.position);
      }
      var step := EditStep(q, action, ids[0]);
      if step.1 {
        EditedFlagged(law, step.0, action, ids[1..]);
        FlaggedThen(law, q, step.0, Edited(step.0, action, ids[1..]).0);
      }
    }
  }

  /** A new entry has a new id. */
  lemma EnteredFlagged(law: Law, b: Books, n: Nzb, top: bool)
    requires n.id != law.id
    ensures Flagged(law, b.queue, Enter(b, n, top).queue)
  {
    hide Stalling;
    FlaggedSubset(law, b.queue, Enter(b, n, top).queue);
  }

  /** Exits that are added are of the next id. */
  ghost predicate OnlyNew(law: Law, b: Books, after: Books) {
    && b.next <= after.next && Flagged(law, b.queue, after.queue)
    && (after.exits == b.exits || after.exits == b.exits + [Completed(b.next)])
  }

  lemma ProcessedFlagged(law: Law, b: Books, k: nat, notifies: bool)
    requires law.id < b.next && k < |b.history|
    ensures OnlyNew(law, b, Processed(b, k, notifies))
  {
    hide Stalling, AllCompleted, Cosmetic;
    var n := Unread(b, k);
    assert Without(b.queue + [n], |b.queue|) == b.queue;
    assert (b.queue + [n])[|b.queue| := n.(post := true)] == b.queue + [n.(post := true)];
    FlaggedSubset(law, b.queue, b.queue);
    FlaggedSubset(law, b.queue, b.queue + [n]);
    FlaggedSubset(law, b.queue, b.queue + [n.(post := true)]);
  }

  /** Every command but a report changes flags of an NZB, removes it, or leaves it alone. */
  lemma EffectFlagged(law: Law, b: Books, c: Command, notifies: bool)
    requires law.id < b.next && !c.DownloadComplete?
    ensures OnlyNew(law, b, Effect(b, c, notifies))
  {
    hide Flagged, Edited, Moved, WithPause, WithFilePause, WithPriority, WithPost, WithParResumed, WithoutId,
         AllResumed, NewNzb, DuplicateOf, Processed, Without, Reset, Stalling;
    FlaggedSubset(law, b.queue, b.queue);
    match c
    case AddNzb(parsed, labels, priority, paused, top) =>
      EnteredFlagged(law, b, NewNzb(b.next, parsed, labels, priority, paused), top);
    case RemoveNzb(id) => PausedFlagged(law, b.queue, id, true, Normal, 0);
    case PauseNzb(id) => PausedFlagged(law, b.queue, id, true, Normal, 0);
    case ResumeNzb(id) => PausedFlagged(law, b.queue, id, false, Normal, 0);
    case MoveNzb(id, position) => MovedFlagged(law, b.queue, id, position);
    case PauseFile(id, file) => PausedFlagged(law, b.queue, id, true, Normal, file);
    case ResumeFile(id, file) => PausedFlagged(law, b.queue, id, false, Normal, file);
    case ResumeAll => ResumedFlagged(law, b.queue);
    case EditQueue(action, ids) => EditedFlagged(law, b.queue, action, ids);
    case ParUnpause(id) => PausedFlagged(law, b.queue, id, true, Normal, 0);
    case HistoryReturn(id) =>
      var k := IndexOf(b.history, id);
      if k < |b.history| {
        EnteredFlagged(law, b.(history := Without(b.history, k)), b.history[k].(id := b.next, paused := false), false);
      }
    case HistoryProcess(id) =>
      var k := IndexOf(b.history, id);
      if k < |b.history| {
        ProcessedFlagged(law, b, k, notifies);
      }
    case HistoryRedownload(id) =>
      var k := IndexOf(b.history, id);
      if k < |b.history| {
        EnteredFlagged(law, b.(history := Without(b.history, k)), Reset(b.history[k], b.next), false);
      }
    case UpdatePostStage(id) => PausedFlagged(law, b.queue, id, true, Normal, 0);
    case FinishPostProcessing(id) =>
      var i := IndexOf(b.queue, id);
      if i < |b.queue| {
        RemovedFlagged(law, b.queue, i);
      }
    case _ =>
  }

  lemma RemovedFlagged(law: Law, q: seq<Nzb>, i: nat)
    requires i < |q|
    ensures Flagged(law, q, Without(q, i))
  {
    FlaggedSubset(law, q, Without(q, i));
  }

  /** So it keeps every coherent promise. */
  lemma EffectObeys(law: Law, b: Books, c: Command, notifies: bool)
    requires Coherent(law) && BooksObey(law, b) && !c.DownloadComplete?
    ensures BooksObey(law, Effect(b, c, notifies))
  {
    hide Flagged, Kept, KeptByFlags, KeptByLaunch, KeptByReport, Effect;
    EffectFlagged(law, b, c, notifies);
    FlaggedKept(law, b.queue, Effect(b, c, notifies).queue);
  }

  lemma KeptWithout(law: Law, q: seq<Nzb>, i: nat)
    requires Kept(law, q) && i < |q|
    ensures Kept(law, Without(q, i))
  {
  }

  lemma KeptReplace(law: Law, q: seq<Nzb>, i: nat, m: Nzb)
    requires Kept(law, q) && i < |q| && (m.id == law.id ==> law.keeps(m))
    ensures Kept(law, q[i := m])
  {
  }

  /** What a report makes of queue and exits, existing article or not. */
  lemma JudgedBooks(b: Books, i: nat, f: nat, a: nat, success: bool, notifies: bool)
    requires i < |b.queue|
    ensures var m := AfterArticle(b.queue[i], f, a, success);
            var closed := CloseFile(m, f);
            var after := Judged(b.(queue := b.queue[i := Booked(b.queue[i], f, a, success)]), i, f, notifies);
            && after.next == b.next
            && if Hopeless(m) then after.queue == Without(b.queue, i) && after.exits == b.exits + [GivenUp(b.queue[i].id)]
               else if !AllCompleted(closed) then after.queue == b.queue[i := closed] && after.exits == b.exits
               else
                 && after.exits == b.exits + [Completed(b.queue[i].id)]
                 && after.queue == if notifies then b.queue[i := closed.(post := true)] else Without(b.queue, i)
  {
    hide Booked, WithHealth, Hopeless, CloseFile, AllCompleted;
    var m := AfterArticle(b.queue[i], f, a, success);
    var closed := CloseFile(m, f);
    var c := b.queue[i := Booked(b.queue[i], f, a, success)];
    assert c[i := m] == b.queue[i := m] && c[i := closed] == b.queue[i := closed];
    assert Without(c[i := m], i) == Without(b.queue, i) == Without(c[i := closed], i);
    assert c[i := closed][i := closed.(post := true)] == b.queue[i := closed.(post := true)];
  }

  lemma ReportObeys(law: Law, b: Books, id: ArticleId, outcome: Outcome, notifies: bool)
    requires Coherent(law) && BooksObey(law, b) && (id.nzb == law.id ==> law.touches(id))
    ensures BooksObey(law, Reported(b, id, outcome, notifies))
  {
    var i := IndexOf(b.queue, id.nzb);
    if i < |b.queue| && !IsTerminal(b.queue[i], id.file, id.seg) {
      var n := b.queue[i];
      assert n.id == law.id ==> law.keeps(n) && id == ArticleId(law.id, id.file, id.seg);
      if outcome == Blocked {
        if HasArticle(n, id.file, id.seg) {
          KeptReplace(law, b.queue, i, Relabel(n, id.file, id.seg, Undefined));
        }
      } else {
        JudgeObeys(law, b, i, id.file, id.seg, outcome == Success, notifies);
      }
    }
  }

  lemma JudgeObeys(law: Law, b: Books, i: nat, f: nat, a: nat, success: bool, notifies: bool)
    requires Coherent(law) && BooksObey(law, b) && i < |b.queue|
    requires b.queue[i].id == law.id ==> law.touches(ArticleId(law.id, f, a))
    ensures BooksObey(law, Judged(b.(queue := b.queue[i := Booked(b.queue[i], f, a, success)]), i, f, notifies))
  {
    var n := b.queue[i];
    var m := AfterArticle(n, f, a, success);
    var closed := CloseFile(m, f);
    assert n.id == law.id ==> KeptAfter(law, m, f);
    hide Booked, WithHealth, Hopeless, CloseFile, AllCompleted, Judged, Kept, KeptByFlags, KeptByLaunch, KeptByReport;
    JudgedBooks(b, i, f, a, success, notifies);
    KeptWithout(law, b.queue, i);
    if !Hopeless(m) {
      if AllCompleted(closed) {
        KeptReplace(law, b.queue, i, closed.(post := true));
      } else {
        KeptReplace(law, b.queue, i, closed);
      }
    }
  }

  // ---- Whole runs ----

  lemma CommandObeys(law: Law, d: Desk, c: Command, notifies: bool)
    requires Coherent(law) && Obeys(law, d) && Expected(d.books.queue, d.active, c)
    ensures Obeys(law, Commanded(d, c, notifies))
  {
    hide Coherent, BooksObey, Effect, Reported;
    match c
    case DownloadComplete(r) =>
      ReportObeys(law, d.books, r.id, r.outcome, notifies);
    case _ =>
      EffectObeys(law, d.books, c, notifies);
  }

  lemma HandledObeys(law: Law, d: Desk, e: Event, notifies: bool)
    requires Coherent(law) && Obeys(law, d)
    ensures Obeys(law, Handled(d, e, notifies))
  {
    hide Coherent, Commanded, Expected, BooksObey;
    if e.Incoming? && Sent(d, e.command) {
      CommandObeys(law, d, e.command, notifies);
    }
  }

  /** The selected article may be touched. */
  lemma LaunchObeys(law: Law, d: Desk, setup: Setup, id: ArticleId)
    requires Coherent(law) && Obeys(law, d) && Sendable(d, setup, id)
    ensures Obeys(law, Launched(d, id))
  {
    SelectionSound(d.books.queue, d.perFile, setup.limits, d.strategy, id);
    hide Follows, KeptByFlags, KeptByReport;
    var q := d.books.queue;
    var j: nat :| j < |q| && q[j].id == id.nzb && HasArticle(q[j], id.file, id.seg)
                  && ArticleAt(q[j], id.file, id.seg).status == Undefined;
    assert id.nzb == law.id ==> law.touches(ArticleId(law.id, id.file, id.seg));
    if IsOpen(q, id) {
      var i := IndexOf(q, id.nzb);
      KeptReplace(law, q, i, Relabel(q[i], id.file, id.seg, Running));
    }
  }

  lemma {:induction false} LaunchesObey(law: Law, d: Desk, setup: Setup, sent: seq<ArticleId>)
    requires Coherent(law) && Obeys(law, d) && SentInTurn(d, setup, sent)
    ensures Obeys(law, Launches(d, sent))
  {
    hide Coherent, Obeys, Launched, Sendable, Capacity;
    if sent != [] {
      var n := |sent| - 1;
      LaunchesObey(law, d, setup, sent[..n]);
      LaunchObeys(law, Launches(d, sent[..n]), setup, sent[n]);
    }
  }

  lemma FilledObeys(law: Law, d: Desk, setup: Setup, sent: seq<ArticleId>)
    requires Coherent(law) && Obeys(law, d) && Fills(d, setup, sent)
    ensures Obeys(law, Filled(d, setup, sent))
  {
    hide Coherent, SentInTurn, BooksObey, Touchable, Exhausted;
    if d.paused || d.shutdown {
      assert Launches(d, []) == d;
    } else {
      LaunchesObey(law, d, setup, sent);
    }
  }

  /** A coherent promise that holds at the start of a run holds to its end. */
  lemma {:induction false} RunObeys(law: Law, d: Desk, setup: Setup, events: seq<Event>, fills: seq<seq<ArticleId>>)
    requires |fills| == |events| && Coherent(law) && Obeys(law, d) && RunFills(d, setup, events, fills)
    ensures Obeys(law, AfterRun(d, setup, events, fills))
  {
    hide Coherent, Obeys, Handled, Filled, Fills;
    if events != [] {
      var n := |events| - 1;
      RunObeys(law, d, setup, events[..n], fills[..n]);
      var before := AfterRun(d, setup, events[..n], fills[..n]);
      HandledObeys(law, before, events[n], setup.notifies);
      FilledObeys(law, Handled(before, events[n], setup.notifies), setup, fills[n]);
    }
  }
}
