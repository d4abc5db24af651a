/** What becomes of NZBs that come back, over whole runs of the coordinator. */
module RunLaws {
  import opened Common
  import opened Dispatch
  import opened History
  import opened Inflight
  import opened Ledger
  import opened Lineage
  import opened Queue
  import opened QueueLaws
  import opened Restore
  import opened Selection
  import opened Tracking

  // ---- Doomed stays doomed ----

  ghost function DoomedLaw(id: nat): Law {
    Law(id, (n: Nzb) => Doomed(n), _ => true, {Completed(id)})
  }

  /** Whatever is reported of an NZB beyond repair, it is beyond repair afterwards. */
  lemma ReportStaysDoomed(n: Nzb, f: nat, a: nat, success: bool)
    requires Doomed(n)
    ensures Hopeless(AfterArticle(n, f, a, success))
  {
    var m := Booked(n, f, a, success);
    BookedParts(n, f, a, success);
    hide Booked;
    DoomStays(n, m);
  }

  /** How booking an article changes what health is computed from. */
  lemma BookedParts(n: Nzb, f: nat, a: nat, success: bool)
    ensures var m := Booked(n, f, a, success);
            var par := f < |n.files| && n.files[f].par;
            && m.id == n.id && m.tally.articles == n.tally.articles
            && m.par.articles == n.par.articles && m.par.size == n.par.size
            && m.tally.lost == n.tally.lost + (if success then 0 else 1)
            && m.par.lost == n.par.lost + (if success || !par then 0 else 1)
            && m.par.failed >= n.par.failed
  {
  }

  lemma DoomedCoherent(id: nat)
    ensures Coherent(DoomedLaw(id))
  {
    var law := DoomedLaw(id);
    forall n: Nzb, f: nat, a: nat, success: bool | Doomed(n)
      ensures Hopeless(AfterArticle(n, f, a, success))
    {
      ReportStaysDoomed(n, f, a, success);
    }
    forall n: Nzb, m: Nzb | Cosmetic(n, m) && Doomed(n)
      ensures Doomed(m)
    {
      SameDoom(n, m);
    }
    forall n: Nzb, f: nat, a: nat, s: ArticleStatus | HasArticle(n, f, a) && Doomed(n)
      ensures Doomed(Relabel(n, f, a, s))
    {
      SameDoom(n, Relabel(n, f, a, s));
    }
    hide Doomed, Hopeless, AfterArticle, Cosmetic, HasArticle, Relabel;
  }

  lemma SameDoom(n: Nzb, m: Nzb)
    requires m.tally == n.tally && m.par == n.par
    ensures Doomed(m) <==> Doomed(n)
  {
    hide Health, CriticalHealth;
  }

  // ---- Done stays done ----

  ghost function DoneLaw(id: nat): Law {
    Law(id, (n: Nzb) => AllDone(n), _ => false, {Completed(id), GivenUp(id)})
  }

  lemma DoneCoherent(id: nat)
    ensures Coherent(DoneLaw(id))
  {
    forall n: Nzb, m: Nzb | Cosmetic(n, m) && AllDone(n)
      ensures AllDone(m)
    {
      assert forall i :: 0 <= i < |n.files| ==> AllTerminal(n.files[i]);
    }
    forall n: Nzb, f: nat, a: nat | AllDone(n) && HasArticle(n, f, a)
      ensures ArticleAt(n, f, a).status != Undefined
    {
      assert AllTerminal(n.files[f]);
    }
    hide AllDone, Cosmetic, HasArticle, AfterArticle;
  }

  // ---- A return never completes ----

  /**
   * Over any run from its return, what was brought back from the history as it was does not
   * complete. With anything left to download it stays doomed while it is queued; with nothing left
   * it stays done and is not given up either.
   */
  lemma ReturnedNeverCompletes(d: Desk, setup: Setup, events: seq<Event>, fills: seq<seq<ArticleId>>, k: nat)
    requires Sound(d.books) && Tracks(d.books.queue, d.active, d.books.next) && k < |d.books.history|
    requires |fills| == |events| && RunFills(d.(books := Returned(d.books, k)), setup, events, fills)
    ensures var end := AfterRun(d.(books := Returned(d.books, k)), setup, events, fills);
            && Completed(d.books.next) !in end.books.exits
            && (AllDone(d.books.history[k]) ==> GivenUp(d.books.next) !in end.books.exits)
            && forall i :: 0 <= i < |end.books.queue| && end.books.queue[i].id == d.books.next ==>
                 if AllDone(d.books.history[k]) then AllDone(end.books.queue[i]) else Doomed(end.books.queue[i])
  {
    var law := if AllDone(d.books.history[k]) then DoneLaw(d.books.next) else DoomedLaw(d.books.next);
    DoneCoherent(d.books.next);
    DoomedCoherent(d.books.next);
    ReturnObeys(d, k);
    hide Coherent, RunFills, AfterRun, Sound, Tracks, Returned, AllDone, Doomed;
    RunObeys(law, d.(books := Returned(d.books, k)), setup, events, fills);
  }

  lemma ReturnObeys(d: Desk, k: nat)
    requires Sound(d.books) && Tracks(d.books.queue, d.active, d.books.next) && k < |d.books.history|
    ensures var start := d.(books := Returned(d.books, k));
            if AllDone(d.books.history[k]) then Obeys(DoneLaw(d.books.next), start) else Obeys(DoomedLaw(d.books.next), start)
  {
    var b, e := d.books, d.books.history[k];
    var n := e.(id := b.next, paused := false);
    assert Shelved(e);
    SameDoom(e, n);
    FreshPlaced(b, n);
    hide Doomed, AllTerminal;
    assert forall i :: 0 <= i < |b.queue| ==> b.queue[i].id < b.next;
    assert forall id :: id in d.active ==> id.nzb < b.next;
  }

  /** So the first article that arrives or fails, whenever that is, gives it up again. */
  lemma ReturnedIsGivenUpAgain(d: Desk, setup: Setup, events: seq<Event>, fills: seq<seq<ArticleId>>, k: nat,
                               id: ArticleId, outcome: Outcome)
    requires Sound(d.books) && Tracks(d.books.queue, d.active, d.books.next) && k < |d.books.history|
    requires |fills| == |events| && RunFills(d.(books := Returned(d.books, k)), setup, events, fills)
    requires id.nzb == d.books.next && outcome != Blocked
    requires IsOpen(AfterRun(d.(books := Returned(d.books, k)), setup, events, fills).books.queue, id)
    ensures var end := AfterRun(d.(books := Returned(d.books, k)), setup, events, fills);
            Reported(end.books, id, outcome, setup.notifies).exits == end.books.exits + [GivenUp(id.nzb)]
  {
    ReturnedNeverCompletes(d, setup, events, fills, k);
    var end := AfterRun(d.(books := Returned(d.books, k)), setup, events, fills);
    OpenIsLeft(end.books.queue, id);
    hide AfterRun, RunFills, Sound, Tracks, Returned, Doomed, AllDone, Reported, IsOpen;
    DoomedIsGivenUp(end.books, id, outcome, setup.notifies);
  }

  // ---- Stranded articles ----

  predicate RunningAt(n: Nzb, f: nat, a: nat) {
    HasArticle(n, f, a) && ArticleAt(n, f, a).status == Running
  }

  ghost function StrandedLaw(id: ArticleId): Law {
    Law(id.nzb, (n: Nzb) => RunningAt(n, id.file, id.seg), (other: ArticleId) => other != id, {})
  }

  /** Touching another article leaves this one running. */
  lemma OtherTouched(n: Nzb, f: nat, a: nat, success: bool, id: ArticleId)
    requires RunningAt(n, id.file, id.seg) && (f != id.file || a != id.seg)
    ensures RunningAt(CloseFile(AfterArticle(n, f, a, success), f), id.file, id.seg)
    ensures HasArticle(n, f, a) ==> RunningAt(Relabel(n, f, a, Running), id.file, id.seg)
    ensures HasArticle(n, f, a) ==> RunningAt(Relabel(n, f, a, Undefined), id.file, id.seg)
  {
    hide TallySuccess, TallyFailure, Health, CriticalHealth, AllTerminal;
  }

  lemma StrandedCoherent(id: ArticleId)
    ensures Coherent(StrandedLaw(id))
  {
    var law := StrandedLaw(id);
    forall n: Nzb, f: nat, a: nat, success: bool | law.keeps(n) && law.touches(ArticleId(id.nzb, f, a))
      ensures law.keeps(CloseFile(AfterArticle(n, f, a, success), f))
      ensures law.keeps(CloseFile(AfterArticle(n, f, a, success), f).(post := true))
      ensures HasArticle(n, f, a) ==> law.keeps(Relabel(n, f, a, Running)) && law.keeps(Relabel(n, f, a, Undefined))
    {
      OtherTouched(n, f, a, success, id);
    }
    assert KeptByFlags(law);
    hide AfterArticle, CloseFile, Relabel, Hopeless, AllCompleted, Cosmetic;
  }

  /**
   * An article that is running and not in flight stays so over any run, as long as its NZB is
   * queued: nothing reports it and no strategy selects it.
   */
  lemma StrandedStays(d: Desk, setup: Setup, events: seq<Event>, fills: seq<seq<ArticleId>>, id: ArticleId)
    requires id !in d.active && id.nzb < d.books.next
    requires forall i :: 0 <= i < |d.books.queue| && d.books.queue[i].id == id.nzb ==>
               RunningAt(d.books.queue[i], id.file, id.seg)
    requires |fills| == |events| && RunFills(d, setup, events, fills)
    ensures var end := AfterRun(d, setup, events, fills);
            && id !in end.active
            && (forall i :: 0 <= i < |end.books.queue| && end.books.queue[i].id == id.nzb ==>
                  RunningAt(end.books.queue[i], id.file, id.seg))
            && !Dispatchable(end.books.queue, end.perFile, setup.limits, id)
  {
    StrandedCoherent(id);
    assert Obeys(StrandedLaw(id), d);
    hide Coherent, RunFills, AfterRun;
    RunObeys(StrandedLaw(id), d, setup, events, fills);
  }

  /** Such are the articles that were running when their NZB was given up, once it is returned. */
  lemma ReturnStrandsRunning(d: Desk, setup: Setup, events: seq<Event>, fills: seq<seq<ArticleId>>, k: nat, f: nat, a: nat)
    requires Sound(d.books) && Tracks(d.books.queue, d.active, d.books.next) && k < |d.books.history|
    requires RunningAt(d.books.history[k], f, a)
    requires |fills| == |events| && RunFills(d.(books := Returned(d.books, k)), setup, events, fills)
    ensures var end, id := AfterRun(d.(books := Returned(d.books, k)), setup, events, fills), ArticleId(d.books.next, f, a);
            && id !in end.active && !Dispatchable(end.books.queue, end.perFile, setup.limits, id)
            && forall i :: 0 <= i < |end.books.queue| && end.books.queue[i].id == id.nzb ==>
                 RunningAt(end.books.queue[i], f, a)
  {
    var start := d.(books := Returned(d.books, k));
    assert forall i :: 0 <= i < |d.books.queue| ==> d.books.queue[i].id < d.books.next;
    hide AfterRun, RunFills, Dispatchable;
    StrandedStays(start, setup, events, fills, ArticleId(d.books.next, f, a));
  }

  // ---- Restored without a par2 share ----

  /** Only articles of par2 files are lost, and no par2 data is known of. */
  predicate ForgotPar(n: Nzb) {
    n.par.size == 0 && n.par.articles == 0 && n.par.lost == n.tally.lost && n.tally.articles > 0
  }

  ghost function ForgotLaw(id: nat): Law {
    Law(id, (n: Nzb) => ForgotPar(n), _ => true, {})
  }

  /** The next report gives it up exactly when it is the loss of an article outside its par2 files. */
  lemma ForgotParStep(n: Nzb, f: nat, a: nat, success: bool)
    requires ForgotPar(n)
    ensures var m := AfterArticle(n, f, a, success);
            && (Hopeless(m) <==> !success && !(f < |n.files| && n.files[f].par))
            && (!Hopeless(m) ==> ForgotPar(m))
  {
    BookedParts(n, f, a, success);
    var m := Booked(n, f, a, success);
    hide Booked;
    GivenUpWithoutPar(m);
    hide WithHealth;
  }

  lemma ForgotCoherent(id: nat)
    ensures Coherent(ForgotLaw(id))
  {
    forall n: Nzb, f: nat, a: nat, success: bool | ForgotPar(n)
      ensures Hopeless(AfterArticle(n, f, a, success)) || ForgotPar(AfterArticle(n, f, a, success))
    {
      ForgotParStep(n, f, a, success);
    }
    hide AfterArticle, Hopeless, AllCompleted, HasArticle;
  }

  /**
   * A restart forgets what par2 data there is. Over any run from then on, a report about a restored
   * NZB gives it up if and only if it is the loss of an article outside its par2 files.
   */
  lemma RestartForgetsPar(d: Desk, setup: Setup, events: seq<Event>, fills: seq<seq<ArticleId>>, n: Nzb,
                          files: seq<SavedFile>, id: ArticleId, outcome: Outcome)
    requires n == RestoredNzb(n.id, files, n.labels, n.priority, n.paused, n.health, n.critical) && HasArticle(n, id.file, id.seg)
    requires n.id < d.books.next && forall i :: 0 <= i < |d.books.queue| && d.books.queue[i].id == n.id ==> d.books.queue[i] == n
    requires |fills| == |events| && RunFills(d, setup, events, fills)
    requires id.nzb == n.id && IsOpen(AfterRun(d, setup, events, fills).books.queue, id) && outcome != Blocked
    ensures var b := AfterRun(d, setup, events, fills).books;
            Reported(b, id, outcome, setup.notifies).exits == b.exits + [GivenUp(id.nzb)] <==>
              outcome == Failure && !b.queue[IndexOf(b.queue, id.nzb)].files[id.file].par
  {
    hide Coherent, RunFills, AfterRun, RestoredNzb, ForgotPar, HasArticle, Reported, IsOpen;
    RestoredForgot(n, files, id);
    ForgotCoherent(n.id);
    RunObeys(ForgotLaw(n.id), d, setup, events, fills);
    ForgottenParReport(AfterRun(d, setup, events, fills).books, id, outcome, setup.notifies);
  }

  lemma ForgottenParReport(b: Books, id: ArticleId, outcome: Outcome, notifies: bool)
    requires IsOpen(b.queue, id) && outcome != Blocked && Kept(ForgotLaw(id.nzb), b.queue)
    ensures Reported(b, id, outcome, notifies).exits == b.exits + [GivenUp(id.nzb)] <==>
              outcome == Failure && !b.queue[IndexOf(b.queue, id.nzb)].files[id.file].par
  {
    var m := b.queue[IndexOf(b.queue, id.nzb)];
    ForgotParStep(m, id.file, id.seg, outcome == Success);
    hide AfterArticle, Hopeless, CloseFile, AllCompleted, ForgotPar, Reported;
    ReportedQueue(b, id, outcome, notifies);
    var after := Reported(b, id, outcome, notifies);
    assert after.exits == b.exits || after.exits[|b.exits|] == GivenUp(id.nzb) || after.exits[|b.exits|] == Completed(id.nzb);
  }

  lemma RestoredForgot(n: Nzb, files: seq<SavedFile>, id: ArticleId)
    requires n == RestoredNzb(n.id, files, n.labels, n.priority, n.paused, n.health, n.critical) && HasArticle(n, id.file, id.seg)
    ensures ForgotPar(n)
  {
    RestoredNzbRight(n.id, files, n.labels, n.priority, n.paused, n.health, n.critical);
    var restored := RestoredFiles(files);
    forall f | 0 <= f < |files|
      ensures FileBalanced(restored[f]) && restored[f].tally.failed == 0 && restored[f].tally.lost == 0
    {
      RestoredFileRight(files[f]);
    }
    NoLosses(restored);
    SomeArticles(n, id.file, id.seg);
  }

  lemma SomeArticles(n: Nzb, f: nat, a: nat)
    requires Queue.Balanced(n) && HasArticle(n, f, a)
    ensures n.tally.articles > 0
  {
    ArticlesConserved(n.files[f].articles);
    assert FileBalanced(n.files[f]);
    FileArticles(n.files, f);
  }

  lemma {:induction false} FileArticles(s: seq<File>, i: nat)
    requires i < |s|
    ensures s[i].tally.articles <= FilesTally(s).articles
  {
    var last := |s| - 1;
    if i < last {
      FileArticles(s[..last], i);
    }
  }
}
