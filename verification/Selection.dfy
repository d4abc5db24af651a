/** Which article the coordinator downloads next. */
module Selection {
  import opened Common
  import opened Queue

  datatype Strategy = Sequential | Balanced | Rocket | Aggressive

  datatype FileFilter = Everything | DataOnly | ParOnly

  type Counts = map<(nat, nat), nat>

  datatype Limits = Limits(connections: nat, perFile: nat)

  predicate Passes(filter: FileFilter, f: File) {
    match filter
    case Everything => true
    case DataOnly => !f.par
    case ParOnly => f.par
  }

  function ActiveOf(counts: Counts, nzb: nat, file: nat): nat {
    if (nzb, file) in counts then counts[(nzb, file)] else 0
  }

  /** Neither in post-processing nor paused, unless forced. */
  predicate NzbOpen(n: Nzb) {
    !n.post && (!n.paused || n.priority == Force)
  }

  predicate FileOpen(n: Nzb, f: nat)
    requires f < |n.files|
  {
    !n.files[f].paused || n.priority == Force
  }

  predicate Waiting(file: File) {
    exists a :: 0 <= a < |file.articles| && file.articles[a].status == Undefined
  }

  /** File f of the i-th NZB may be downloaded and passes the filter. */
  predicate Admitted(q: seq<Nzb>, filter: FileFilter, i: nat, f: nat) {
    i < |q| && f < |q[i].files| && NzbOpen(q[i]) && FileOpen(q[i], f) && Passes(filter, q[i].files[f])
  }

  predicate Runnable(q: seq<Nzb>, filter: FileFilter, i: nat, f: nat) {
    Admitted(q, filter, i, f) && Waiting(q[i].files[f])
  }

  ghost function RunnableFiles(q: seq<Nzb>, filter: FileFilter): set<(nat, nat)> {
    RunnableBefore(q, filter, |q|, 0)
  }

  /** The runnable files that come before file f of NZB i. */
  ghost function RunnableBefore(q: seq<Nzb>, filter: FileFilter, i: nat, f: nat): set<(nat, nat)>
    requires i <= |q|
  {
    set j: nat, g: nat | j < |q| && g < |q[j].files| && (j < i || (j == i && g < f)) && Runnable(q, filter, j, g) :: (j, g)
  }

  /** One runnable file alone may use every connection. */
  ghost function Cap(q: seq<Nzb>, limits: Limits, filter: FileFilter): nat {
    if |RunnableFiles(q, filter)| <= 1 then limits.connections else limits.perFile
  }

  predicate Eligible(q: seq<Nzb>, counts: Counts, filter: FileFilter, cap: nat, i: nat, f: nat, a: nat) {
    && Admitted(q, filter, i, f)
    && ActiveOf(counts, q[i].id, f) < cap
    && a < |q[i].files[f].articles|
    && q[i].files[f].articles[a].status == Undefined
  }

  ghost predicate NoneEligible(q: seq<Nzb>, counts: Counts, filter: FileFilter, cap: nat) {
    forall i: nat, f: nat, a: nat :: !Eligible(q, counts, filter, cap, i, f, a)
  }

  /** Higher priority first; among equals, the NZB further back in the queue. */
  predicate Ahead(q: seq<Nzb>, i: nat, j: nat)
    requires i < |q| && j < |q|
  {
    Rank(q[i].priority) > Rank(q[j].priority) || (Rank(q[i].priority) == Rank(q[j].priority) && i > j)
  }

  predicate AheadOrFirst(q: seq<Nzb>, i: nat, f: nat, a: nat, j: nat, g: nat, b: nat)
    requires i < |q| && j < |q|
  {
    Ahead(q, i, j) || (i == j && (f < g || (f == g && a <= b)))
  }

  ghost predicate Best(q: seq<Nzb>, counts: Counts, filter: FileFilter, cap: nat, i: nat, f: nat, a: nat) {
    && Eligible(q, counts, filter, cap, i, f, a)
    && forall j: nat, g: nat, b: nat :: Eligible(q, counts, filter, cap, j, g, b) ==> AheadOrFirst(q, i, f, a, j, g, b)
  }

  ghost predicate Names(q: seq<Nzb>, id: ArticleId, i: nat, f: nat, a: nat) {
    i < |q| && id == ArticleId(q[i].id, f, a)
  }

  /** The result is the best eligible article, or there is none. */
  ghost predicate Picked(q: seq<Nzb>, counts: Counts, limits: Limits, filter: FileFilter, r: Option<ArticleId>) {
    var cap := Cap(q, limits, filter);
    match r
    case None => NoneEligible(q, counts, filter, cap)
    case Some(id) => exists i: nat, f: nat, a: nat :: Best(q, counts, filter, cap, i, f, a) && Names(q, id, i, f, a)
  }

  /** First one kind of files, the other only when nothing of the first is eligible. */
  ghost predicate Follows(q: seq<Nzb>, counts: Counts, limits: Limits, strategy: Strategy, r: Option<ArticleId>) {
    match strategy
    case Sequential => Picked(q, counts, limits, Everything, r)
    case Rocket => Preferred(q, counts, limits, DataOnly, Everything, r)
    case Balanced => Preferred(q, counts, limits, DataOnly, ParOnly, r)
    case Aggressive => Preferred(q, counts, limits, ParOnly, DataOnly, r)
  }

  ghost predicate Preferred(q: seq<Nzb>, counts: Counts, limits: Limits,
                            first: FileFilter, second: FileFilter, r: Option<ArticleId>) {
    if NoneEligible(q, counts, first, Cap(q, limits, first))
    then Picked(q, counts, limits, second, r)
    else Picked(q, counts, limits, first, r)
  }

  // ---- What the choice guarantees ----

  /** A file with room under both limits. */
  ghost predicate HasRoom(q: seq<Nzb>, counts: Counts, limits: Limits, i: nat, f: nat) {
    && Runnable(q, Everything, i, f)
    && ActiveOf(counts, q[i].id, f) < limits.connections
    && ActiveOf(counts, q[i].id, f) < limits.perFile
  }

  lemma RoomIsEligible(q: seq<Nzb>, counts: Counts, limits: Limits, filter: FileFilter, i: nat, f: nat)
    requires HasRoom(q, counts, limits, i, f) && Passes(filter, q[i].files[f])
    ensures !NoneEligible(q, counts, filter, Cap(q, limits, filter))
  {
    var a :| 0 <= a < |q[i].files[f].articles| && q[i].files[f].articles[a].status == Undefined;
    assert Eligible(q, counts, filter, Cap(q, limits, filter), i, f, a);
  }

  lemma PickedNone(q: seq<Nzb>, counts: Counts, limits: Limits, filter: FileFilter, r: Option<ArticleId>)
    requires Picked(q, counts, limits, filter, r)
    ensures r.None? <==> NoneEligible(q, counts, filter, Cap(q, limits, filter))
  {
  }

  /** No strategy leaves a file with room waiting without choosing something. */
  lemma WorkConserving(q: seq<Nzb>, counts: Counts, limits: Limits, strategy: Strategy, r: Option<ArticleId>, i: nat, f: nat)
    requires Follows(q, counts, limits, strategy, r) && HasRoom(q, counts, limits, i, f)
    ensures r.Some?
  {
    hide NoneEligible, Picked, Cap;
    forall filter | Passes(filter, q[i].files[f])
      ensures !NoneEligible(q, counts, filter, Cap(q, limits, filter))
    {
      RoomIsEligible(q, counts, limits, filter, i, f);
    }
    forall filter | Picked(q, counts, limits, filter, r)
      ensures r.None? <==> NoneEligible(q, counts, filter, Cap(q, limits, filter))
    {
      PickedNone(q, counts, limits, filter, r);
    }
    if q[i].files[f].par {
      assert Passes(ParOnly, q[i].files[f]) && Passes(Everything, q[i].files[f]);
    } else {
      assert Passes(DataOnly, q[i].files[f]) && Passes(Everything, q[i].files[f]);
    }
  }

  /** What may be dispatched at all: open, waiting, below the larger limit. */
  ghost predicate Dispatchable(q: seq<Nzb>, counts: Counts, limits: Limits, id: ArticleId) {
    exists i: nat ::
      && i < |q| && q[i].id == id.nzb && HasArticle(q[i], id.file, id.seg)
      && NzbOpen(q[i]) && FileOpen(q[i], id.file)
      && ArticleAt(q[i], id.file, id.seg).status == Undefined
      && (ActiveOf(counts, id.nzb, id.file) < limits.connections || ActiveOf(counts, id.nzb, id.file) < limits.perFile)
  }

  lemma PickedSound(q: seq<Nzb>, counts: Counts, limits: Limits, filter: FileFilter, id: ArticleId)
    requires Picked(q, counts, limits, filter, Some(id))
    ensures Dispatchable(q, counts, limits, id)
  {
    var i: nat, f: nat, a: nat :| Best(q, counts, filter, Cap(q, limits, filter), i, f, a) && Names(q, id, i, f, a);
    assert q[i].id == id.nzb && HasArticle(q[i], id.file, id.seg);
  }

  lemma SelectionSound(q: seq<Nzb>, counts: Counts, limits: Limits, strategy: Strategy, id: ArticleId)
    requires Follows(q, counts, limits, strategy, Some(id))
    ensures Dispatchable(q, counts, limits, id)
  {
    hide Picked, Dispatchable, NoneEligible, Cap;
    forall filter | Picked(q, counts, limits, filter, Some(id))
      ensures Dispatchable(q, counts, limits, id)
    {
      PickedSound(q, counts, limits, filter, id);
    }
  }

  /** The choice is determined: two answers that both satisfy the rule are the same. */
  lemma PickedUnique(q: seq<Nzb>, counts: Counts, limits: Limits, filter: FileFilter,
                     r: Option<ArticleId>, s: Option<ArticleId>)
    requires Picked(q, counts, limits, filter, r) && Picked(q, counts, limits, filter, s)
    ensures r == s
  {
    hide Eligible, Cap;
    var cap := Cap(q, limits, filter);
    if r.Some? && s.Some? {
      var i: nat, f: nat, a: nat :| Best(q, counts, filter, cap, i, f, a) && Names(q, r.value, i, f, a);
      var j: nat, g: nat, b: nat :| Best(q, counts, filter, cap, j, g, b) && Names(q, s.value, j, g, b);
      assert AheadOrFirst(q, i, f, a, j, g, b) && AheadOrFirst(q, j, g, b, i, f, a);
    }
  }

  /** So no two answers of a strategy differ. */
  lemma FollowsUnique(q: seq<Nzb>, counts: Counts, limits: Limits, strategy: Strategy,
                      r: Option<ArticleId>, s: Option<ArticleId>)
    requires Follows(q, counts, limits, strategy, r) && Follows(q, counts, limits, strategy, s)
    ensures r == s
  {
    hide Picked, NoneEligible, Cap;
    forall filter | Picked(q, counts, limits, filter, r) && Picked(q, counts, limits, filter, s)
      ensures r == s
    {
      PickedUnique(q, counts, limits, filter, r, s);
    }
  }

  /** Eligible articles of an NZB of the given rank. */
  predicate Ranked(q: seq<Nzb>, counts: Counts, filter: FileFilter, cap: nat, rank: int, i: nat, f: nat, a: nat) {
    Eligible(q, counts, filter, cap, i, f, a) && Rank(q[i].priority) == rank
  }

  /**
   * The picked NZB is the first in the queue among those of its priority with something eligible
   * if and only if it is the only one of them: the sorted queue is walked from its end.
   */
  lemma FirstComesLast(q: seq<Nzb>, counts: Counts, filter: FileFilter, cap: nat, i: nat, f: nat, a: nat)
    requires Best(q, counts, filter, cap, i, f, a)
    ensures var rank := Rank(q[i].priority);
            (forall j: nat, g: nat, b: nat :: Ranked(q, counts, filter, cap, rank, j, g, b) ==> i <= j) <==>
            (forall j: nat, g: nat, b: nat :: Ranked(q, counts, filter, cap, rank, j, g, b) ==> i == j)
  {
    assert i < |q| && Ranked(q, counts, filter, cap, Rank(q[i].priority), i, f, a);
    hide Rank;
    forall j: nat, g: nat, b: nat | Ranked(q, counts, filter, cap, Rank(q[i].priority), j, g, b)
      ensures j <= i
    {
      assert j < |q| && AheadOrFirst(q, i, f, a, j, g, b);
    }
  }

  /** One file with one article, not downloaded yet. */
  function Single(id: nat): Nzb {
    var tally := Tally(1, 1, 0, 0, 1, 0, 0);
    Nzb(id, Labels("", "", "", 0, ScoreMode, []), Normal, false, false, false, 1000, 1000, ParShare(0, 0, 0, 0),
        [File(false, false, false, [Article(1, Undefined)], tally)], tally)
  }

  /** Of two equal NZBs the one added later is downloaded first. */
  lemma LaterAddedFirst(counts: Counts, limits: Limits, r: Option<ArticleId>)
    requires counts == map[] && limits.connections > 0 && limits.perFile > 0
    requires Follows([Single(1), Single(2)], counts, limits, Sequential, r)
    ensures r == Some(ArticleId(2, 0, 0))
  {
    var q := [Single(1), Single(2)];
    var cap := Cap(q, limits, Everything);
    assert Eligible(q, counts, Everything, cap, 1, 0, 0);
    assert r.Some?;
    var i: nat, f: nat, a: nat :| Best(q, counts, Everything, cap, i, f, a) && Names(q, r.value, i, f, a);
    assert AheadOrFirst(q, i, f, a, 1, 0, 0);
  }

  // ---- The program ----

  lemma NextFile(q: seq<Nzb>, filter: FileFilter, i: nat, f: nat)
    requires i < |q| && f < |q[i].files|
    ensures RunnableBefore(q, filter, i, f + 1)
         == if Runnable(q, filter, i, f) then RunnableBefore(q, filter, i, f) + {(i, f)} else RunnableBefore(q, filter, i, f)
  {
  }

  lemma NextNzb(q: seq<Nzb>, filter: FileFilter, i: nat, f: nat)
    requires i < |q| && (f == |q[i].files| || !NzbOpen(q[i]))
    ensures RunnableBefore(q, filter, i + 1, 0) == RunnableBefore(q, filter, i, f)
  {
  }

  method CountRunnableFiles(q: seq<Nzb>, filter: FileFilter) returns (count: nat)
    ensures count == |RunnableFiles(q, filter)|
  {
    count := 0;
    for i := 0 to |q|
      invariant count == |RunnableBefore(q, filter, i, 0)|
    {
      if NzbOpen(q[i]) {
        for f := 0 to |q[i].files|
          invariant count == |RunnableBefore(q, filter, i, f)|
        {
          NextFile(q, filter, i, f);
          if FileOpen(q[i], f) && Passes(filter, q[i].files[f]) && Waiting(q[i].files[f]) {
            count := count + 1;
          }
        }
        NextNzb(q, filter, i, |q[i].files|);
      } else {
        NextNzb(q, filter, i, 0);
      }
    }
  }

  /** Inserts index i into a list sorted by priority, after its equals. */
  function Insert(q: seq<Nzb>, order: seq<nat>, i: nat): seq<nat>
    requires i < |q| && forall k :: 0 <= k < |order| ==> order[k] < |q|
  {
    if order == [] then [i]
    else
      var n := |order| - 1;
      if Rank(q[order[n]].priority) <= Rank(q[i].priority) then order + [i]
      else Insert(q, order[..n], i) + [order[n]]
  }

  ghost predicate Sorted(q: seq<Nzb>, order: seq<nat>) {
    && (forall k :: 0 <= k < |order| ==> order[k] < |q|)
    && forall k, l :: 0 <= k < l < |order| ==> Ahead(q, order[l], order[k])
  }

  lemma {:induction false} InsertMembers(q: seq<Nzb>, order: seq<nat>, i: nat)
    requires i < |q| && forall k :: 0 <= k < |order| ==> order[k] < |q|
    ensures multiset(Insert(q, order, i)) == multiset(order) + multiset{i}
  {
    hide Rank;
    if order != [] {
      var n := |order| - 1;
      assert order == order[..n] + [order[n]];
      InsertMembers(q, order[..n], i);
    }
  }

  lemma AheadTransitive(q: seq<Nzb>, i: nat, j: nat, k: nat)
    requires i < |q| && j < |q| && k < |q| && Ahead(q, i, j) && Ahead(q, j, k)
    ensures Ahead(q, i, k)
  {
  }

  lemma SortedPush(q: seq<Nzb>, order: seq<nat>, i: nat)
    requires Sorted(q, order) && i < |q| && (order != [] ==> Ahead(q, i, order[|order| - 1]))
    ensures Sorted(q, order + [i])
  {
    hide Ahead;
    forall k | 0 <= k < |order|
      ensures Ahead(q, i, order[k])
    {
      if k < |order| - 1 {
        AheadTransitive(q, i, order[|order| - 1], order[k]);
      }
    }
  }

  lemma {:induction false} InsertSorted(q: seq<Nzb>, order: seq<nat>, i: nat)
    requires i < |q| && Sorted(q, order) && forall k :: 0 <= k < |order| ==> order[k] < i
    ensures Sorted(q, Insert(q, order, i))
  {
    hide Rank;
    if order == [] || Rank(q[order[|order| - 1]].priority) <= Rank(q[i].priority) {
      SortedPush(q, order, i);
    } else {
      var n := |order| - 1;
      var rest := Insert(q, order[..n], i);
      InsertSorted(q, order[..n], i);
      InsertMembers(q, order[..n], i);
      var last := rest[|rest| - 1];
      assert last in multiset(rest);
      assert last == i || last in order[..n];
      SortedPush(q, rest, order[n]);
    }
  }

  ghost predicate Lists(order: seq<nat>, n: nat) {
    forall i :: 0 <= i < n <==> i in order
  }

  lemma InsertNext(q: seq<Nzb>, order: seq<nat>, i: nat)
    requires i < |q| && Sorted(q, order) && Lists(order, i)
    ensures Sorted(q, Insert(q, order, i)) && Lists(Insert(q, order, i), i + 1)
  {
    hide Insert, Sorted;
    assert forall k :: 0 <= k < |order| ==> order[k] in order;
    assert forall k :: 0 <= k < |order| ==> order[k] < |q|;
    InsertSorted(q, order, i);
    InsertMembers(q, order, i);
    var next := Insert(q, order, i);
    forall x: int
      ensures x in next <==> 0 <= x < i + 1
    {
      if x >= 0 {
        assert x in next <==> x in multiset(next);
        assert x in order <==> x in multiset(order);
      }
    }
  }

  /** Stable sort by ascending priority. */
  method SortByPriority(q: seq<Nzb>) returns (order: seq<nat>)
    ensures Sorted(q, order) && Lists(order, |q|)
  {
    order := [];
    for i := 0 to |q|
      invariant Sorted(q, order) && Lists(order, i)
    {
      assert forall k :: 0 <= k < |order| ==> order[k] in order;
      InsertNext(q, order, i);
      order := Insert(q, order, i);
    }
  }

  method FirstUndefined(file: File) returns (a: nat)
    ensures a <= |file.articles|
    ensures a < |file.articles| ==> file.articles[a].status == Undefined
    ensures forall b :: 0 <= b < a ==> file.articles[b].status != Undefined
  {
    a := 0;
    while a < |file.articles| && file.articles[a].status != Undefined
      invariant a <= |file.articles|
      invariant forall b :: 0 <= b < a ==> file.articles[b].status != Undefined
    {
      a := a + 1;
    }
  }

  /** The first eligible article of one NZB. */
  method FirstInNzb(q: seq<Nzb>, counts: Counts, filter: FileFilter, cap: nat, i: nat)
    returns (r: Option<(nat, nat)>)
    requires i < |q|
    ensures r.None? ==> forall f: nat, a: nat :: !Eligible(q, counts, filter, cap, i, f, a)
    ensures r.Some? ==> Eligible(q, counts, filter, cap, i, r.value.0, r.value.1)
    ensures r.Some? ==> forall f: nat, a: nat :: Eligible(q, counts, filter, cap, i, f, a) ==>
              r.value.0 < f || (r.value.0 == f && r.value.1 <= a)
  {
    if !NzbOpen(q[i]) {
      return None;
    }
    for f := 0 to |q[i].files|
      invariant forall g: nat, a: nat :: g < f ==> !Eligible(q, counts, filter, cap, i, g, a)
    {
      if FileOpen(q[i], f) && Passes(filter, q[i].files[f]) && ActiveOf(counts, q[i].id, f) < cap {
        var a := FirstUndefined(q[i].files[f]);
        if a < |q[i].files[f].articles| {
          return Some((f, a));
        }
      }
    }
    return None;
  }

  method NextArticleFiltered(q: seq<Nzb>, counts: Counts, limits: Limits, filter: FileFilter)
    returns (r: Option<ArticleId>)
    ensures Picked(q, counts, limits, filter, r)
  {
    var runnable := CountRunnableFiles(q, filter);
    var cap := if runnable <= 1 then limits.connections else limits.perFile;
    assert cap == Cap(q, limits, filter);
    var order := SortByPriority(q);
    hide Cap, Eligible;
    var k := |order|;
    while k > 0
      invariant 0 <= k <= |order|
      invariant forall l, f: nat, a: nat :: k <= l < |order| ==> !Eligible(q, counts, filter, cap, order[l], f, a)
    {
      k := k - 1;
      var i := order[k];
      var found := FirstInNzb(q, counts, filter, cap, i);
      if found.Some? {
        var (f, a) := found.value;
        BestInOrder(q, counts, filter, cap, order, k, f, a);
        assert Names(q, ArticleId(q[i].id, f, a), i, f, a);
        return Some(ArticleId(q[i].id, f, a));
      }
    }
    forall i: nat, f: nat, a: nat
      ensures !Eligible(q, counts, filter, cap, i, f, a)
    {
      EligibleInOrder(q, counts, filter, cap, order, i, f, a);
    }
    return None;
  }

  lemma EligibleInOrder(q: seq<Nzb>, counts: Counts, filter: FileFilter, cap: nat, order: seq<nat>, i: nat, f: nat, a: nat)
    requires Lists(order, |q|)
    ensures Eligible(q, counts, filter, cap, i, f, a) ==> exists l :: 0 <= l < |order| && order[l] == i
  {
    if i < |q| {
      assert i in order;
    }
  }

  lemma BestInOrder(q: seq<Nzb>, counts: Counts, filter: FileFilter, cap: nat, order: seq<nat>, k: nat, f: nat, a: nat)
    requires Sorted(q, order) && k < |order| && Lists(order, |q|)
    requires forall l, g: nat, b: nat :: k < l < |order| ==> !Eligible(q, counts, filter, cap, order[l], g, b)
    requires Eligible(q, counts, filter, cap, order[k], f, a)
    requires forall g: nat, b: nat :: Eligible(q, counts, filter, cap, order[k], g, b) ==> f < g || (f == g && a <= b)
    ensures Best(q, counts, filter, cap, order[k], f, a)
  {
    forall j: nat, g: nat, b: nat | Eligible(q, counts, filter, cap, j, g, b)
      ensures AheadOrFirst(q, order[k], f, a, j, g, b)
    {
      EligibleInOrder(q, counts, filter, cap, order, j, g, b);
      hide Eligible;
      var l :| 0 <= l < |order| && order[l] == j;
    }
  }

  method NextArticle(q: seq<Nzb>, counts: Counts, limits: Limits, strategy: Strategy)
    returns (r: Option<ArticleId>)
    ensures Follows(q, counts, limits, strategy, r)
  {
    hide NoneEligible, Best, Cap;
    match strategy
    case Sequential =>
      r := NextArticleFiltered(q, counts, limits, Everything);
    case Rocket =>
      r := NextArticleFiltered(q, counts, limits, DataOnly);
      if r.Some? {
        SomeEligible(q, counts, limits, DataOnly, r);
        return;
      }
      r := NextArticleFiltered(q, counts, limits, Everything);
    case Balanced =>
      r := NextArticleFiltered(q, counts, limits, DataOnly);
      if r.Some? {
        SomeEligible(q, counts, limits, DataOnly, r);
        return;
      }
      r := NextArticleFiltered(q, counts, limits, ParOnly);
    case Aggressive =>
      r := NextArticleFiltered(q, counts, limits, ParOnly);
      if r.Some? {
        SomeEligible(q, counts, limits, ParOnly, r);
        return;
      }
      r := NextArticleFiltered(q, counts, limits, DataOnly);
  }

  lemma SomeEligible(q: seq<Nzb>, counts: Counts, limits: Limits, filter: FileFilter, r: Option<ArticleId>)
    requires Picked(q, counts, limits, filter, r) && r.Some?
    ensures !NoneEligible(q, counts, filter, Cap(q, limits, filter))
  {
  }
}
