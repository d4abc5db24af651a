/** What a restart makes of the saved queue and history. */
module Restore {
  import opened Common
  import opened History
  import opened Ledger
  import opened Queue

  /** A parsed file with its saved article bitmap, if that could be loaded. */
  datatype SavedFile = SavedFile(parsed: ParsedFile, done: Option<seq<bool>>)

  /** Bits behind the end of a bitmap are not set. */
  predicate IsDone(done: Option<seq<bool>>, i: nat) {
    done.Some? && i < |done.value| && done.value[i]
  }

  function RestoredArticles(sizes: seq<nat>, done: Option<seq<bool>>): (s: seq<Article>)
    ensures |s| == |sizes|
  {
    seq(|sizes|, i requires 0 <= i < |sizes| => Article(sizes[i], if IsDone(done, i) then Finished else Undefined))
  }

  /** The counters as the loop over the first n articles adds them up. */
  function DoneTally(sizes: seq<nat>, done: Option<seq<bool>>, n: nat): (nat, nat)
    requires n <= |sizes|
  {
    if n == 0 then (0, 0)
    else
      var t := DoneTally(sizes, done, n - 1);
      if IsDone(done, n - 1) then (t.0 + 1, t.1 + sizes[n - 1]) else t
  }

  function RestoredFile(f: SavedFile): File {
    var sizes := f.parsed.segments;
    var (count, size) := DoneTally(sizes, f.done, |sizes|);
    File(f.parsed.par, false, f.done.Some? && count == |sizes|, RestoredArticles(sizes, f.done),
         Tally(Total(sizes), Less(Total(sizes), size), size, 0, |sizes|, count, 0))
  }

  function RestoredFiles(files: seq<SavedFile>): (r: seq<File>)
    ensures |r| == |files| && forall i :: 0 <= i < |files| ==> r[i] == RestoredFile(files[i])
  {
    seq(|files|, i requires 0 <= i < |files| => RestoredFile(files[i]))
  }

  /** The par2 share is not saved; neither is post-processing. */
  function RestoredNzb(id: nat, files: seq<SavedFile>, labels: Labels, priority: Priority, paused: bool,
                       health: nat, critical: nat): Nzb {
    var restored := RestoredFiles(files);
    var t := FilesTally(restored);
    Nzb(id, labels, priority, paused, false, false, health, critical, ParShare(0, 0, 0, 0), restored,
        t.(remaining := Less(t.size, t.success)))
  }

  /** Of a history entry only the size is left, all of it counted as downloaded. */
  function RestoredEntry(id: nat, labels: Labels, size: nat): Nzb {
    Nzb(id, labels, Normal, false, false, false, 1000, 1000, ParShare(0, 0, 0, 0), [], Tally(size, 0, size, 0, 0, 0, 0))
  }

  lemma {:induction false} PrefixTally(sizes: seq<nat>, done: Option<seq<bool>>, n: nat)
    requires n <= |sizes|
    ensures var t, d := ArticlesTally(RestoredArticles(sizes, done)[..n]), DoneTally(sizes, done, n);
            && t.size == Total(sizes[..n]) && t.success == d.1 && t.failed == 0
            && t.articles == n && t.succeeded == d.0 && t.lost == 0 && t.remaining + t.success == t.size
  {
    if n > 0 {
      PrefixTally(sizes, done, n - 1);
      PrefixPush(sizes, done, n - 1);
      OneMore(ArticlesTally(RestoredArticles(sizes, done)[..n - 1]), sizes[n - 1], IsDone(done, n - 1));
      hide IsDone, RestoredArticles, Total, ArticlesTally, Plus, Entry;
    }
  }

  lemma OneMore(t: Tally, size: nat, done: bool)
    ensures Plus(t, Entry(Article(size, if done then Finished else Undefined)))
         == Tally(t.size + size, t.remaining + (if done then 0 else size), t.success + (if done then size else 0), t.failed,
                  t.articles + 1, t.succeeded + (if done then 1 else 0), t.lost)
  {
  }

  lemma {:induction false} DoneCount(sizes: seq<nat>, done: Option<seq<bool>>, n: nat)
    requires n <= |sizes|
    ensures DoneTally(sizes, done, n).0 <= n
    ensures DoneTally(sizes, done, n).0 == n <==> forall i :: 0 <= i < n ==> IsDone(done, i)
  {
    hide IsDone;
    if n > 0 {
      DoneCount(sizes, done, n - 1);
    }
  }

  lemma PrefixPush(sizes: seq<nat>, done: Option<seq<bool>>, n: nat)
    requires n < |sizes|
    ensures var a := Article(sizes[n], if IsDone(done, n) then Finished else Undefined);
            ArticlesTally(RestoredArticles(sizes, done)[..n + 1])
              == Plus(ArticlesTally(RestoredArticles(sizes, done)[..n]), Entry(a))
    ensures Total(sizes[..n + 1]) == Total(sizes[..n]) + sizes[n]
  {
    var s := RestoredArticles(sizes, done)[..n + 1];
    assert sizes[..n + 1][..n] == sizes[..n];
    assert s[..n] == RestoredArticles(sizes, done)[..n];
    hide Plus, Entry;
  }

  /** A restored file is balanced and, if it has articles, marked complete exactly when all are done. */
  lemma RestoredFileRight(f: SavedFile)
    ensures var r := RestoredFile(f);
            && FileBalanced(r) && r.tally.failed == 0 && r.tally.lost == 0
            && (r.articles != [] ==> (r.completed <==> AllTerminal(r)))
            && (AllTerminal(r) <==> forall i :: 0 <= i < |r.articles| ==> IsDone(f.done, i))
            && forall i :: 0 <= i < |r.articles| ==> r.articles[i].status != Running
  {
    var sizes := f.parsed.segments;
    PrefixTally(sizes, f.done, |sizes|);
    DoneCount(sizes, f.done, |sizes|);
    var r := RestoredFile(f);
    assert r.articles[..|sizes|] == r.articles && sizes[..|sizes|] == sizes;
    forall i | 0 <= i < |sizes|
      ensures Terminal(r.articles[i].status) <==> IsDone(f.done, i)
    {
    }
    if r.articles != [] && AllTerminal(r) {
      assert Terminal(r.articles[0].status);
    }
  }

  /** A restored file has the articles that were parsed, finished where their bit is set and undefined elsewhere. */
  lemma RestoredFileIs(f: SavedFile)
    ensures var r := RestoredFile(f);
            && r.par == f.parsed.par && !r.paused && |r.articles| == |f.parsed.segments|
            && forall i :: 0 <= i < |r.articles| ==>
                 r.articles[i] == Article(f.parsed.segments[i],
                                          if f.done.Some? && i < |f.done.value| && f.done.value[i] then Finished else Undefined)
  {
  }

  /** What was saved of an NZB comes back; its par2 share and post_info do not. */
  lemma RestoredNzbIs(id: nat, files: seq<SavedFile>, labels: Labels, priority: Priority, paused: bool, health: nat, critical: nat)
    ensures var n := RestoredNzb(id, files, labels, priority, paused, health, critical);
            && (n.id, n.labels, n.priority, n.paused, n.health, n.critical) == (id, labels, priority, paused, health, critical)
            && !n.post && !n.reprocess && n.par == ParShare(0, 0, 0, 0)
            && |n.files| == |files| && forall f :: 0 <= f < |files| ==> n.files[f] == RestoredFile(files[f])
  {
  }

  lemma {:induction false} NoLosses(files: seq<File>)
    requires forall i :: 0 <= i < |files| ==> FileBalanced(files[i]) && files[i].tally.failed == 0 && files[i].tally.lost == 0
    ensures FilesTally(files).failed == 0 && FilesTally(files).lost == 0
  {
    if files != [] {
      NoLosses(files[..|files| - 1]);
    }
  }

  /**
   * A restored NZB is balanced and settled; it is startable exactly when it has files, each with an
   * article, and some article is not done.
   */
  lemma RestoredNzbRight(id: nat, files: seq<SavedFile>, labels: Labels, priority: Priority, paused: bool,
                         health: nat, critical: nat)
    ensures var n := RestoredNzb(id, files, labels, priority, paused, health, critical);
            && Queue.Balanced(n) && Settled(n)
            && (Startable(n) <==> NoEmptyFile(n) && !AllDone(n))
            && (AllDone(n) <==> forall f :: 0 <= f < |files| ==>
                  forall i :: 0 <= i < |files[f].parsed.segments| ==> IsDone(files[f].done, i))
  {
    var restored := RestoredFiles(files);
    forall f | 0 <= f < |files|
      ensures FileBalanced(restored[f]) && restored[f].tally.failed == 0 && restored[f].tally.lost == 0
      ensures restored[f].articles != [] ==> (restored[f].completed <==> AllTerminal(restored[f]))
      ensures AllTerminal(restored[f]) <==> forall i :: 0 <= i < |files[f].parsed.segments| ==> IsDone(files[f].done, i)
      ensures forall i :: 0 <= i < |restored[f].articles| ==> restored[f].articles[i].status != Running
    {
      RestoredFileRight(files[f]);
    }
    hide RestoredFile, AllTerminal, FileBalanced, IsDone;
    FilesConserved(restored);
    NoLosses(restored);
    assert FilesTally(restored).remaining == Less(FilesTally(restored).size, FilesTally(restored).success);
  }

  /** A restored entry only conserves, and has nothing left. */
  lemma RestoredEntryRight(id: nat, labels: Labels, size: nat)
    ensures var e := RestoredEntry(id, labels, size);
            && Queue.Balanced(e) && Shelved(e) && AllDone(e) && !Startable(e)
            && e.id == id && e.labels == labels && !e.post && e.par.size == e.par.articles == e.par.lost == e.par.failed == 0
            && e.tally.size == e.tally.success == size && e.tally.articles == e.tally.succeeded == 0
  {
  }
}
