/** What the coordinator's invariants mean for NZBs, and the cases its code gets wrong. */
module QueueLaws {
  import opened Common
  import opened History
  import opened Inflight
  import opened Ledger
  import opened Progress
  import opened Queue
  import opened Selection
  import opened Tracking

  /** Size is success plus failed plus remaining, for every NZB and every file. */
  lemma AccountsConserved(b: Books, i: nat)
    requires Sound(b) && i < |b.queue|
    ensures Conserved(b.queue[i].tally)
    ensures forall f :: 0 <= f < |b.queue[i].files| ==> Conserved(b.queue[i].files[f].tally)
  {
    var n := b.queue[i];
    assert Queue.Balanced(n);
    if n.files != [] {
      FilesConserved(n.files);
    }
    forall f | 0 <= f < |n.files|
      ensures Conserved(n.files[f].tally)
    {
      assert FileBalanced(n.files[f]);
      FileConserved(n.files[f]);
    }
  }

  /**
   * The counters of an NZB with files are the sizes and numbers of all its articles, by what became
   * of them, and so are those of each file.
   */
  lemma CountersAreSums(b: Books, i: nat)
    requires Sound(b) && i < |b.queue| && b.queue[i].files != []
    ensures CountsArticles(b.queue[i].tally, AllArticles(b.queue[i].files))
    ensures forall f :: 0 <= f < |b.queue[i].files| ==> CountsArticles(b.queue[i].files[f].tally, b.queue[i].files[f].articles)
  {
    var n := b.queue[i];
    assert Queue.Balanced(n);
    FilesTallyMeans(n.files);
    TallyMeans(AllArticles(n.files));
    hide Sound;
    forall f | 0 <= f < |n.files|
      ensures CountsArticles(n.files[f].tally, n.files[f].articles)
    {
      assert FileBalanced(n.files[f]);
      TallyMeans(n.files[f].articles);
    }
  }

  ghost predicate CountsArticles(t: Tally, s: seq<Article>) {
    && t.size == SizeWith(s, {Undefined, Running, Finished, ArticleStatus.Failed})
    && t.remaining == SizeWith(s, {Undefined, Running})
    && t.success == SizeWith(s, {Finished}) && t.failed == SizeWith(s, {ArticleStatus.Failed})
    && t.articles == |s| && t.succeeded == CountWith(s, {Finished}) && t.lost == CountWith(s, {ArticleStatus.Failed})
  }

  /** Every article but one is finished or failed. */
  ghost predicate OthersDone(n: Nzb, f: nat, a: nat) {
    forall g: nat, c: nat :: HasArticle(n, g, c) && (g != f || c != a) ==> Terminal(ArticleAt(n, g, c).status)
  }

  /**
   * An NZB completes exactly with the report that finishes or fails its last article, if that does
   * not give it up and no file without articles is unmarked.
   */
  lemma CompletesExactlyWhenDone(b: Books, id: ArticleId, outcome: Outcome, notifies: bool)
    requires Sound(b) && Completed(id.nzb) !in b.exits && IsOpen(b.queue, id) && outcome != Blocked
    ensures var n := b.queue[IndexOf(b.queue, id.nzb)];
            Completed(id.nzb) in Reported(b, id, outcome, notifies).exits <==>
              && OthersDone(n, id.file, id.seg) && EmptyMarked(n)
              && !Hopeless(AfterArticle(n, id.file, id.seg, outcome == Success))
  {
    var n := b.queue[IndexOf(b.queue, id.nzb)];
    assert Trusted(n);
    var m := AfterArticle(n, id.file, id.seg, outcome == Success);
    var closed := CloseFile(m, id.file);
    AfterArticleTrusted(n, id.file, id.seg, outcome == Success);
    AfterArticleTouches(n, id.file, id.seg, outcome == Success);
    AfterArticleStatus(n, id.file, id.seg, outcome == Success);
    EmptyKept(n, id.file, id.seg, outcome == Success);
    hide Sound, Booked, WithHealth, Hopeless, CloseFile, Trusted;
    ReportedQueue(b, id, outcome, notifies);
    if !Hopeless(m) {
      DoneMeansCompleted(n, closed, id.file, id.seg);
    }
  }

  /** Every file without articles carries its mark. */
  predicate EmptyMarked(n: Nzb) {
    forall f :: 0 <= f < |n.files| && n.files[f].articles == [] ==> n.files[f].completed
  }

  lemma EmptyKept(n: Nzb, f: nat, a: nat, success: bool)
    requires HasArticle(n, f, a)
    ensures EmptyMarked(CloseFile(AfterArticle(n, f, a, success), f)) <==> EmptyMarked(n)
  {
    var m := CloseFile(AfterArticle(n, f, a, success), f);
    forall g | 0 <= g < |n.files|
      ensures |m.files[g].articles| == |n.files[g].articles|
      ensures g != f ==> m.files[g] == n.files[g]
    {
    }
    hide CloseFile, AfterArticle;
  }

  lemma DoneMeansCompleted(n: Nzb, m: Nzb, f: nat, a: nat)
    requires TouchesOnly(n, m, f, a) && HasArticle(m, f, a) && Terminal(ArticleAt(m, f, a).status) && Settled(m)
    ensures AllCompleted(m) <==> OthersDone(n, f, a) && EmptyMarked(m)
  {
    if AllCompleted(m) {
      forall g: nat, c: nat | HasArticle(n, g, c) && (g != f || c != a)
        ensures Terminal(ArticleAt(n, g, c).status)
      {
        assert ArticleAt(m, g, c) == ArticleAt(n, g, c);
        assert m.files[g].completed && AllTerminal(m.files[g]);
      }
    }
    if OthersDone(n, f, a) && EmptyMarked(m) {
      forall g | 0 <= g < |m.files| && m.files[g].articles != []
        ensures m.files[g].completed
      {
        forall c | 0 <= c < |m.files[g].articles|
          ensures Terminal(m.files[g].articles[c].status)
        {
          if g != f || c != a {
            assert HasArticle(n, g, c);
            assert ArticleAt(m, g, c) == ArticleAt(n, g, c);
          }
        }
        assert AllTerminal(m.files[g]);
      }
    }
  }

  /** Every exit is the only one of its id; a given-up NZB is gone, a completed one in post-processing or gone. */
  lemma OneExit(b: Books, e: Exit, i: nat)
    requires Sound(b) && e in b.exits
    ensures multiset(b.exits)[e] == 1 && forall other :: other in b.exits && other.id == e.id ==> other == e
    ensures i < |b.queue| && b.queue[i].id == e.id ==> e.Completed? && b.queue[i].post && AllCompleted(b.queue[i])
  {
    var k :| 0 <= k < |b.exits| && b.exits[k] == e;
    assert b.exits == b.exits[..k] + [e] + b.exits[k + 1..];
    assert e !in b.exits[..k] && e !in b.exits[k + 1..];
    if i < |b.queue| && b.queue[i].id == e.id {
      assert Placed(b.queue[i], b.exits);
    }
  }

  /**
   * An NZB whose files are all marked complete while an article is open, as history_process makes
   * them, is doomed: it can be given up by a report but not complete a second time.
   */
  lemma MarkedUnreadIsDoomed(b: Books, id: ArticleId, outcome: Outcome, notifies: bool)
    requires Sound(b) && IsOpen(b.queue, id) && AllCompleted(b.queue[IndexOf(b.queue, id.nzb)]) && outcome != Blocked
    ensures Doomed(b.queue[IndexOf(b.queue, id.nzb)])
    ensures Reported(b, id, outcome, notifies).exits == b.exits + [GivenUp(id.nzb)]
  {
    var n := b.queue[IndexOf(b.queue, id.nzb)];
    assert Trusted(n);
    OpenIsLeft(b.queue, id);
    assert Settled(n) && AllCompleted(n) ==> AllDone(n);
    hide Reported, Doomed, Sound;
    DoomedIsGivenUp(b, id, outcome, notifies);
  }

  // ---- Where the code falls short ----

  /** A doomed NZB is given up with its next article, whatever becomes of that article. */
  lemma DoomedIsGivenUp(b: Books, id: ArticleId, outcome: Outcome, notifies: bool)
    requires IsOpen(b.queue, id) && Doomed(b.queue[IndexOf(b.queue, id.nzb)]) && outcome != Blocked
    ensures var after := Reported(b, id, outcome, notifies);
            && after.exits == b.exits + [GivenUp(id.nzb)]
            && after.queue == Without(b.queue, IndexOf(b.queue, id.nzb))
            && |after.history| == |b.history| + 1 && Doomed(after.history[|b.history|])
            && after.history[|b.history|].id == id.nzb && after.history[..|b.history|] == b.history
  {
    var n := b.queue[IndexOf(b.queue, id.nzb)];
    BookedStaysDoomed(n, id.file, id.seg);
    hide Booked, WithHealth, Hopeless, CloseFile, AllCompleted;
    ReportedQueue(b, id, outcome, notifies);
    assert Doomed(Booked(n, id.file, id.seg, outcome == Success)) by {
      BookedIs(n, id.file, id.seg, outcome == Success);
    }
    HealthTwice(Booked(n, id.file, id.seg, outcome == Success));
  }

  lemma BookedIs(n: Nzb, f: nat, a: nat, success: bool)
    requires HasArticle(n, f, a)
    ensures Booked(n, f, a, success) == if success then Received(n, f, a) else Missed(n, f, a)
  {
  }

  lemma HealthTwice(n: Nzb)
    ensures WithHealth(WithHealth(n)) == WithHealth(n)
  {
  }

  /** A redownloaded one starts afresh and is not doomed, so it can complete. */
  lemma RedownloadedHasAChance(b: Books, k: nat)
    requires Sound(b) && k < |b.history|
    ensures var after := Redownloaded(b, k);
            Sound(after) && after.queue[|b.queue|].id == b.next && !Doomed(after.queue[|b.queue|])
  {
    RedownloadedSound(b, k);
    ResetStarts(b.history[k], b.next);
    hide Sound, Doomed, Reset;
  }

  /** Redownloading leaves post_info in place: an article of it can be dispatched if and only if the entry had none. */
  lemma RedownloadOpens(b: Books, k: nat, id: ArticleId, limits: Limits)
    requires Sound(b) && k < |b.history| && id.nzb == b.next && HasArticle(b.history[k], id.file, id.seg)
    requires limits.connections > 0
    ensures Dispatchable(Redownloaded(b, k).queue, map[], limits, id) <==> !b.history[k].post
  {
    var after, n := Redownloaded(b, k), Reset(b.history[k], b.next);
    RedownloadedSound(b, k);
    ResetStarts(b.history[k], b.next);
    assert after.queue[|b.queue|] == n;
    forall i: nat | i < |after.queue| && after.queue[i].id == b.next
      ensures i == |b.queue|
    {
      IndexUnique(after.queue, i);
      IndexUnique(after.queue, |b.queue|);
    }
    assert HasArticle(n, id.file, id.seg) && FileOpen(n, id.file) && (NzbOpen(n) <==> !b.history[k].post);
    hide Sound, Redownloaded, Reset, HasArticle;
  }

  /** Without a post-processor every completed NZB goes to the history with post_info set. */
  lemma SilentCompletionBlocksRedownload(b: Books, i: nat, id: nat)
    requires i < |b.queue| && AllCompleted(b.queue[i])
    ensures var c := Finish(b, i, false);
            && |c.history| == |b.history| + 1 && c.history[|b.history|].id == b.queue[i].id
            && !NzbOpen(Reset(c.history[|b.history|], id))
  {
  }

  /**
   * An article can be dispatched after a return to the queue if and only if it is undefined, its
   * file is not paused unless forced, and the entry had no post_info.
   */
  lemma ReturnOpens(b: Books, k: nat, id: ArticleId, limits: Limits)
    requires Sound(b) && k < |b.history| && id.nzb == b.next && HasArticle(b.history[k], id.file, id.seg)
    requires limits.connections > 0
    ensures var e := b.history[k];
            Dispatchable(Returned(b, k).queue, map[], limits, id) <==>
              !e.post && FileOpen(e, id.file) && ArticleAt(e, id.file, id.seg).status == Undefined
  {
    var after := Returned(b, k);
    var n := b.history[k].(id := b.next, paused := false);
    ReturnedSound(b, k);
    assert after.queue[|b.queue|] == n;
    forall i: nat | i < |after.queue| && after.queue[i].id == b.next
      ensures i == |b.queue|
    {
      IndexUnique(after.queue, i);
      IndexUnique(after.queue, |b.queue|);
    }
    hide Sound, Returned;
  }

  /**
   * An NZB without an open article is never selected, nothing of it is in flight, and no report
   * about an existing article changes it or lets it leave: only commands can move it.
   */
  lemma DoneIsIdle(b: Books, active: Flights, i: nat, id: ArticleId, outcome: Outcome, notifies: bool)
    requires Sound(b) && Tracks(b.queue, active, b.next) && i < |b.queue| && AllDone(b.queue[i]) && Known(b.queue, id)
    ensures forall other :: other in active ==> other.nzb != b.queue[i].id
    ensures forall counts, limits, other: ArticleId ::
              other.nzb == b.queue[i].id ==> !Dispatchable(b.queue, counts, limits, other)
    ensures var after := Reported(b, id, outcome, notifies);
            b.queue[i] in after.queue && forall e :: e in after.exits && e.id == b.queue[i].id ==> e in b.exits
  {
    DoneNotDispatchable(b.queue, i);
    IndexUnique(b.queue, i);
    DoneNotInFlight(b.queue, active, b.next, i);
    if IsOpen(b.queue, id) {
      OpenIsLeft(b.queue, id);
      hide Sound, Tracks, AllDone;
      OthersStay(b, i, id, outcome, notifies);
    }
  }

  lemma OpenIsLeft(q: seq<Nzb>, id: ArticleId)
    requires IsOpen(q, id)
    ensures !AllDone(q[IndexOf(q, id.nzb)])
  {
    assert !AllTerminal(q[IndexOf(q, id.nzb)].files[id.file]);
  }

  lemma DoneNotDispatchable(q: seq<Nzb>, i: nat)
    requires DistinctIds(q) && i < |q| && AllDone(q[i])
    ensures forall counts, limits, id: ArticleId :: id.nzb == q[i].id ==> !Dispatchable(q, counts, limits, id)
  {
    forall j: nat, id: ArticleId | j < |q| && q[j].id == id.nzb == q[i].id && HasArticle(q[j], id.file, id.seg)
      ensures ArticleAt(q[j], id.file, id.seg).status != Undefined
    {
      assert AllTerminal(q[i].files[id.file]);
    }
  }

  lemma DoneNotInFlight(q: seq<Nzb>, active: Flights, next: nat, i: nat)
    requires Tracks(q, active, next) && i < |q| && AllDone(q[i])
    ensures forall other :: other in active ==> other.nzb != q[i].id
  {
    forall other | other in active
      ensures other.nzb != q[i].id
    {
      if other.nzb == q[i].id {
        FlyingIsLeft(q[i], other);
      }
    }
  }

  lemma FlyingIsLeft(n: Nzb, id: ArticleId)
    requires Flying(n, id)
    ensures !AllDone(n)
  {
    assert !AllTerminal(n.files[id.file]);
  }

  lemma OtherStays(q: seq<Nzb>, k: nat, m: Nzb, i: nat)
    requires k < |q| && i < |q| && i != k
    ensures q[i] in q[k := m] && q[i] in Without(q, k)
  {
    assert q[k := m][i] == q[i];
    assert Without(q, k)[if i < k then i else i - 1] == q[i];
  }

  lemma OthersStay(b: Books, i: nat, id: ArticleId, outcome: Outcome, notifies: bool)
    requires IsOpen(b.queue, id) && i < |b.queue| && IndexOf(b.queue, id.nzb) != i && b.queue[i].id != id.nzb
    ensures var after := Reported(b, id, outcome, notifies);
            b.queue[i] in after.queue && forall e :: e in after.exits && e.id == b.queue[i].id ==> e in b.exits
  {
    var k := IndexOf(b.queue, id.nzb);
    var closed := CloseFile(AfterArticle(b.queue[k], id.file, id.seg, outcome == Success), id.file);
    OtherStays(b.queue, k, Relabel(b.queue[k], id.file, id.seg, Undefined), i);
    OtherStays(b.queue, k, closed, i);
    OtherStays(b.queue, k, closed.(post := true), i);
    hide Booked, WithHealth, Hopeless, CloseFile, AllCompleted, Without;
    if outcome != Blocked {
      ReportedQueue(b, id, outcome, notifies);
    }
  }

  /** What comes back with nothing left, and what is redownloaded without files, enters the queue like that. */
  lemma ComesBackDone(b: Books, k: nat)
    requires Sound(b) && k < |b.history|
    ensures var n := Returned(b, k).queue[|b.queue|];
            AllDone(n) <==> AllDone(b.history[k])
    ensures var n := Redownloaded(b, k).queue[|b.queue|];
            b.history[k].files == [] ==>
              AllDone(n) && n.tally.remaining == n.tally.size == b.history[k].tally.size
  {
    hide AllTerminal;
  }
}
