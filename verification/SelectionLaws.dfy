/** What the choice of the next article comes to, in terms of flags, priorities and positions. */
module SelectionLaws {
  import opened Common
  import opened Queue
  import opened Selection

  // ---- Which articles can be sent ----

  /**
   * An article not downloaded yet of an NZB that is not in post-processing, where neither the NZB nor
   * the file is paused unless the priority is to force it, of a file of the kind asked for.
   */
  ghost predicate Ready(q: seq<Nzb>, filter: FileFilter, i: nat, f: nat, a: nat) {
    && i < |q| && f < |q[i].files| && a < |q[i].files[f].articles|
    && q[i].files[f].articles[a].status == Undefined
    && !q[i].post
    && (q[i].priority == Force || (!q[i].paused && !q[i].files[f].paused))
    && (filter == DataOnly ==> !q[i].files[f].par) && (filter == ParOnly ==> q[i].files[f].par)
  }

  /** Fewer articles of the file than the cap are in flight. */
  ghost predicate Below(counts: Counts, nzb: nat, file: nat, cap: nat) {
    if (nzb, file) in counts then counts[(nzb, file)] < cap else 0 < cap
  }

  lemma EligibleMeans(q: seq<Nzb>, counts: Counts, filter: FileFilter, cap: nat, i: nat, f: nat, a: nat)
    ensures Eligible(q, counts, filter, cap, i, f, a) <==> Ready(q, filter, i, f, a) && Below(counts, q[i].id, f, cap)
  {
  }

  lemma RunnableMeans(q: seq<Nzb>, filter: FileFilter, i: nat, f: nat)
    ensures Runnable(q, filter, i, f) <==> exists a: nat :: Ready(q, filter, i, f, a)
  {
    if a: nat :| Ready(q, filter, i, f, a) {
      assert q[i].files[f].articles[a].status == Undefined;
    }
    if Runnable(q, filter, i, f) {
      var a :| 0 <= a < |q[i].files[f].articles| && q[i].files[f].articles[a].status == Undefined;
      assert Ready(q, filter, i, f, a);
    }
  }

  // ---- How many articles of one file at a time ----

  /** Two different files have an article ready. */
  ghost predicate TwoReady(q: seq<Nzb>, filter: FileFilter) {
    exists i: nat, f: nat, a: nat, j: nat, g: nat, b: nat ::
      Ready(q, filter, i, f, a) && Ready(q, filter, j, g, b) && (i != j || f != g)
  }

  lemma InRunnable(q: seq<Nzb>, filter: FileFilter, i: nat, f: nat)
    ensures (i, f) in RunnableFiles(q, filter) <==> Runnable(q, filter, i, f)
  {
  }

  /** One file alone may use every connection; as soon as two have something ready each has its own limit. */
  lemma CapMeans(q: seq<Nzb>, limits: Limits, filter: FileFilter)
    ensures Cap(q, limits, filter) == if TwoReady(q, filter) then limits.perFile else limits.connections
  {
    var files := RunnableFiles(q, filter);
    hide Runnable, Ready, RunnableFiles;
    if TwoReady(q, filter) {
      var i: nat, f: nat, a: nat, j: nat, g: nat, b: nat :|
        Ready(q, filter, i, f, a) && Ready(q, filter, j, g, b) && (i != j || f != g);
      RunnableMeans(q, filter, i, f);
      RunnableMeans(q, filter, j, g);
      InRunnable(q, filter, i, f);
      InRunnable(q, filter, j, g);
      TwoMembers(files, (i, f), (j, g));
    } else if |files| > 1 {
      var x, y := TwoOf(files);
      InRunnable(q, filter, x.0, x.1);
      InRunnable(q, filter, y.0, y.1);
      RunnableMeans(q, filter, x.0, x.1);
      RunnableMeans(q, filter, y.0, y.1);
    }
  }

  lemma TwoMembers<T>(s: set<T>, x: T, y: T)
    requires x in s && y in s && x != y
    ensures |s| > 1
  {
    assert s == {x, y} + (s - {x, y});
  }

  lemma TwoOf(s: set<(nat, nat)>) returns (x: (nat, nat), y: (nat, nat))
    requires |s| > 1
    ensures x in s && y in s && x != y
  {
    x :| x in s;
    var rest := s - {x};
    assert |rest| > 0;
    y :| y in rest;
  }

  // ---- Which of them comes first ----

  /** From the lowest to the highest. */
  const PRIORITIES := [VeryLow, Low, Normal, High, VeryHigh, Force]

  ghost predicate Outranks(p: Priority, other: Priority) {
    exists k, l :: 0 <= k < l < |PRIORITIES| && PRIORITIES[k] == other && PRIORITIES[l] == p
  }

  lemma RankOrders(p: Priority, other: Priority)
    ensures Outranks(p, other) <==> Rank(p) > Rank(other)
    ensures p == other <==> Rank(p) == Rank(other)
  {
    forall l, k | 0 <= k < l < |PRIORITIES|
      ensures Rank(PRIORITIES[k]) < Rank(PRIORITIES[l])
    {
    }
    Listed(p);
    Listed(other);
  }

  lemma Listed(p: Priority)
    ensures exists k :: 0 <= k < |PRIORITIES| && PRIORITIES[k] == p
  {
    assert PRIORITIES[0] == VeryLow && PRIORITIES[1] == Low && PRIORITIES[2] == Normal;
    assert PRIORITIES[3] == High && PRIORITIES[4] == VeryHigh && PRIORITIES[5] == Force;
  }

  /**
   * What is picked is ready and below the cap. Nothing else that is so is of an NZB of higher
   * priority, or of one of the same priority further back in the queue, or comes earlier in the NZB.
   */
  ghost predicate FirstInLine(q: seq<Nzb>, counts: Counts, filter: FileFilter, cap: nat, id: ArticleId, i: nat) {
    && Ready(q, filter, i, id.file, id.seg) && q[i].id == id.nzb && Below(counts, id.nzb, id.file, cap)
    && forall j: nat, g: nat, b: nat :: Ready(q, filter, j, g, b) && Below(counts, q[j].id, g, cap) ==>
         && !Outranks(q[j].priority, q[i].priority)
         && (q[j].priority == q[i].priority ==> j < i || (j == i && (id.file < g || (id.file == g && id.seg <= b))))
  }

  lemma PickedIsFirst(q: seq<Nzb>, counts: Counts, limits: Limits, filter: FileFilter, id: ArticleId)
    requires Picked(q, counts, limits, filter, Some(id))
    ensures exists i: nat :: FirstInLine(q, counts, filter, Cap(q, limits, filter), id, i)
  {
    var cap := Cap(q, limits, filter);
    hide Cap;
    var i: nat, f: nat, a: nat :| Best(q, counts, filter, cap, i, f, a) && Names(q, id, i, f, a);
    EligibleMeans(q, counts, filter, cap, i, f, a);
    hide Eligible, Ready, Below, Rank, Outranks;
    forall j: nat, g: nat, b: nat | Ready(q, filter, j, g, b) && Below(counts, q[j].id, g, cap)
      ensures j < |q| && !Outranks(q[j].priority, q[i].priority)
      ensures q[j].priority == q[i].priority ==> j < i || (j == i && (f < g || (f == g && a <= b)))
    {
      EligibleMeans(q, counts, filter, cap, j, g, b);
      assert AheadOrFirst(q, i, f, a, j, g, b);
      RankOrders(q[j].priority, q[i].priority);
    }
    assert FirstInLine(q, counts, filter, cap, id, i);
  }

  // ---- Which kind of file ----

  /** Something of the kind is ready and below its cap. */
  ghost predicate Offered(q: seq<Nzb>, counts: Counts, limits: Limits, filter: FileFilter) {
    exists i: nat, f: nat, a: nat :: Ready(q, filter, i, f, a) && Below(counts, q[i].id, f, Cap(q, limits, filter))
  }

  lemma OfferedMeans(q: seq<Nzb>, counts: Counts, limits: Limits, filter: FileFilter)
    ensures Offered(q, counts, limits, filter) <==> !NoneEligible(q, counts, filter, Cap(q, limits, filter))
  {
    var cap := Cap(q, limits, filter);
    hide Cap, Eligible, Below;
    if Offered(q, counts, limits, filter) {
      var i: nat, f: nat, a: nat :| Ready(q, filter, i, f, a) && Below(counts, q[i].id, f, cap);
      EligibleMeans(q, counts, filter, cap, i, f, a);
    }
    if !NoneEligible(q, counts, filter, cap) {
      var i: nat, f: nat, a: nat :| Eligible(q, counts, filter, cap, i, f, a);
      EligibleMeans(q, counts, filter, cap, i, f, a);
    }
  }

  /** The kinds of files in the order a strategy asks for them. */
  ghost function Kinds(strategy: Strategy): seq<FileFilter> {
    match strategy
    case Sequential => [Everything]
    case Balanced => [DataOnly, ParOnly]
    case Rocket => [DataOnly, Everything]
    case Aggressive => [ParOnly, DataOnly]
  }

  /** The first in line of the first of these kinds of which something is offered. */
  ghost predicate FirstOffered(q: seq<Nzb>, counts: Counts, limits: Limits, kinds: seq<FileFilter>, r: Option<ArticleId>) {
    if kinds == [] then r == None
    else if Offered(q, counts, limits, kinds[0]) then
      r.Some? && exists i: nat :: FirstInLine(q, counts, kinds[0], Cap(q, limits, kinds[0]), r.value, i)
    else FirstOffered(q, counts, limits, kinds[1..], r)
  }

  lemma PickedOffers(q: seq<Nzb>, counts: Counts, limits: Limits, filter: FileFilter, r: Option<ArticleId>)
    requires Picked(q, counts, limits, filter, r)
    ensures FirstOffered(q, counts, limits, [filter], r)
  {
    hide Cap, Picked, NoneEligible, Offered, FirstInLine;
    OfferedMeans(q, counts, limits, filter);
    PickedNone(q, counts, limits, filter, r);
    if r.Some? {
      PickedIsFirst(q, counts, limits, filter, r.value);
    }
  }

  /**
   * Balanced and rocket download data before par2 files, aggressive par2 files first, and sequential
   * makes no difference.
   */
  lemma StrategyTakes(q: seq<Nzb>, counts: Counts, limits: Limits, strategy: Strategy, r: Option<ArticleId>)
    requires Follows(q, counts, limits, strategy, r)
    ensures FirstOffered(q, counts, limits, Kinds(strategy), r)
  {
    hide Cap, Picked, NoneEligible, Offered, FirstInLine;
    forall filter
      ensures Offered(q, counts, limits, filter) <==> !NoneEligible(q, counts, filter, Cap(q, limits, filter))
      ensures Picked(q, counts, limits, filter, r) ==> FirstOffered(q, counts, limits, [filter], r)
    {
      OfferedMeans(q, counts, limits, filter);
      if Picked(q, counts, limits, filter, r) {
        PickedOffers(q, counts, limits, filter, r);
      }
    }
    var kinds := Kinds(strategy);
    assert |kinds| == 2 ==> kinds[1..] == [kinds[1]];
  }

  /** Of a high and a low NZB the high one is downloaded first, wherever it is. */
  lemma HigherFirst(high: Priority, low: Priority, limits: Limits, r: Option<ArticleId>)
    requires Outranks(high, low) && limits.connections > 0 && limits.perFile > 0
    requires Follows([Single(1).(priority := high), Single(2).(priority := low)], map[], limits, Sequential, r)
    ensures r == Some(ArticleId(1, 0, 0))
  {
    var q := [Single(1).(priority := high), Single(2).(priority := low)];
    var cap := Cap(q, limits, Everything);
    assert Ready(q, Everything, 0, 0, 0) && Below(map[], q[0].id, 0, cap);
    StrategyTakes(q, map[], limits, Sequential, r);
    assert Offered(q, map[], limits, Everything);
    var i: nat :| FirstInLine(q, map[], Everything, cap, r.value, i);
  }
}
